# Verified model of the Arrow MC core

Arrow MC is a Minecraft server foundation written in Rust. Its hard parts are
self-contained data structures and state machines. This project models them in Dafny and
proves what they promise. `dafny verify dfyconfig.toml` checks everything.

The files follow the repository's own groups. Code that changes fields or buffers in place
is a class, an array or a loop here too, proved against a specification function or a plain
mathematical object; properties over many calls are lemmas about that object.

* Common ground: `World` (addresses, packing, machine-word wrap-around), `Probing` (linear
  probing with deletion, shared by three hash tables), `Sums` (sums over finite maps),
  `Filters` (what it means to keep some entries of a sequence in order).
* Scheduled ticks: `Identities` (the open-addressing identity table), `TickTypes`,
  `TickMoves` (what a sequence of swaps does), `TickHeap`, `TickSweep` (removal in one sweep
  with deferred revisits), `TickState` (queues, scheduling index, what a greedy run is), `TickPhase` (phase
  collection), `TickQueues`, `TickArea`, `TickCopy`, `TickExact` (when the duplicate set is
  exact), `TickOutcome` (the phase is determined), `TickOwner` (the owner and its invariant, and its
  operations as steps), `TickAnswers` (when `has_scheduled` answers right), `TickOrder` and `TickLaws` (due
  times, turns, areas and copies in terms of the ticks alone).
* Chunk sender: `PendingPositions` (the probe tables), `Nearest` (the merge sort),
  `Selection` (the bounded nearest-first collector), `Delivery` (the ordered packet queue),
  `Sender` (quota, window and admission).
* Sections: `Wire`, `BigEndian`, `PackedWords`, `Palette`, `Paletted` (containers as dense
  arrays), `SectionCodec` (writer, reader and the direct encoder).
* Section cache: `PreparationState`, `Preparation`. A ghost map `world` holds what the owner
  was told each cell is; the invariant relates palettes, jobs and cached bytes to it.
* CPU pool: `CpuPool` (every step of clients and workers as a transition, and all runs),
  `PoolLock` (the methods behind the lock, each one such a transition).
* Binary NBT: `Nbt`, `NbtWrite`, `NbtCompound`, `NbtRead`, `NbtSize`, `NbtMatch` and
  `NbtCompare` (the explicit-stack comparison and the recursive one), `NbtTrees` (copying,
  depth and release), `NbtLaws` (which trees can be written, and their bytes).
* Text NBT: `SnbtText` (the printed form and what reading it gives), `SnbtWrite`, `SnbtScan`,
  `SnbtRead`.
* Geometry and columns: `ViewGeometry`, `View`, `HeightColumns`, `HeightSource`, `Heightmap`,
  `HeightmapStore`.

Many specification functions follow the code's own recursion. For each of them a lemma says
what it means without it: in raw fields, literal bytes, flags or places of a sequence. These
lemmas are named after what they explain (`OrderMeans`, `LeavesMatch`, `VarintMeans`).

Modelling choices. Integers are unbounded; wrap-around, saturation and truncation are written
out where the code relies on them. A hash is an arbitrary function of the key, so the table
results hold for every hash. Threads are steps in any interleaving; pool answers and
completions are arbitrary functions, so the cache results hold for every timing. A reader
takes ghost arguments naming what was written: its contract says both what holds of every
input and that written input is read back. Floats travel as bit patterns; sender quotas are
reals.

Where code and expectation part, the code is modelled as it is:

* A bit header does not always tell direct from indirect storage: in a registry no larger
  than the largest palette, direct storage announces a palette width
  (`SectionCodec.DirectHeaderMisleads`, an equivalence). Building from cells never produces
  such a container. Reading one does, when the input stores direct words behind a header above
  the palette widths, and growth does, from a palette that lists values twice: `Paletted.Set`
  and `SectionCodec.ReadNetwork` say exactly when, and `SectionCodec.ForeignHeader` and
  `SectionCodec.MisleadingGrowth` are inputs. Without repeats growth does not
  (`Paletted.GrownHeader`).
* An identity saved twice makes `has_scheduled` answer wrong, though not at once: right after a
  load it is right whatever was saved (`TickAnswers.LoadedIsPrecise`), and once one of the two
  was selected it denies the other. It is right in every continuation of a load if and only if
  no identity was saved twice (`TickAnswers.LoadedAnswersRightExactly`); `TickAnswers.SavedTwice`
  is the smallest failing run.
* A query of the running phase that was asked before an area was cleared goes on to answer yes
  for what was cleared; `TickOwner.ScheduledTickOwner.WillTickThisPhase` says for which
  identities, and `TickOwner.AskClearAsk` shows it for every tick that remained.
* A copied tick follows the originals only while its shifted sub-order does not overflow
  (`TickCopy.CopyFollowsOriginals`, an equivalence; `TickCopy.CopyBeforeOriginals` is an
  input where it does not, and `TickCopy.CopyDoublesRange` says how copies get there).
* Priming stops at anything but plain air, updating asks whether a block matches, and a
  section counted empty reads as plain air whatever kinds of air it stores. Priming is right
  for every world of a registry if and only if plain air matches nothing
  (`Heightmap.PrimingIsRightExactly`); updating after every edit if and only if no kind of air
  is told from plain air (`Heightmap.UpdateIsRightExactly`); a primed and updated map after
  every history of edits if and only if no kind of air matches (`Heightmap.HistoryIsRightExactly`).
  The failing worlds are lemmas too.
* The text reader counts a number array as one level of depth, the printer does not, so a
  list holding an array at the limit prints and is refused (`SnbtRead.ArrayAtTheLimit`); empty
  keys and End print but do not come back. `SnbtRead.ParseUtf16` and
  `SnbtText.ReadBackIsIdentity` give the exact condition.

## Model

| member | source | states |
|---|---|---|
| `Identities.IdentitySet.Contains` | src/world/ticks.rs:218-227 | the open-addressing table answers membership of the set it stands for, for every insert and remove history |
| `Identities.IdentitySet.Insert` | src/world/ticks.rs:228-238 | insertion adds exactly that identity; every stored identity stays reachable from its home slot |
| `Identities.IdentitySet.Remove` | src/world/ticks.rs:239-256 | tombstone-free removal takes away exactly that identity; the probe paths of all others survive |
| `Identities.IdentitySet.ReinsertCluster` | src/world/ticks.rs:239-256 | taking and reinserting the cluster after a hole stops, loses no entry and leaves every key reachable |
| `Identities.IdentitySet.Clear` | src/world/ticks.rs:257-262 | clearing leaves the empty set in a well-formed table |
| `Probing.ProbeDecides` | src/world/ticks.rs:207-227 | a probe that stops at an empty slot proves absence, one that stops at the key proves presence |
| `Probing.ReinsertSlot` | src/world/ticks.rs:239-256 | a reinserted key lands between its home and the slot it was taken from, never beyond the cluster |
| `Probing.FewKeysLeaveEmpty` | src/world/ticks.rs:195-206 | fewer keys than slots leave an empty slot, so every probe loop ends |
| `TickHeap.RootIsLeast` | src/world/ticks/heap.rs:38-52 | the root of a tick heap precedes or ties with every queued tick |
| `TickHeap.Push` | src/world/ticks/heap.rs:38-45 | pushing keeps the heap order and adds exactly one tick to the multiset |
| `TickHeap.Pop` | src/world/ticks/heap.rs:47-52 | popping returns a least tick and removes exactly that one |
| `TickHeap.Raise` | src/world/ticks/heap.rs:59-69 | raising one displaced entry restores the heap and permutes the ticks |
| `TickHeap.Lower` | src/world/ticks/heap.rs:71-88 | lowering either settles the heap or leaves the entry where it was, ready to be raised |
| `TickHeap.RemoveAt` | src/world/ticks/heap.rs:92-108 | removal at any index keeps the heap order and removes exactly the entry there; the reported swaps say where every other entry went, and the destination is the last entry's new place |
| `TickSweep.RemoveInside` | src/world/ticks/heap.rs:199-225 | one sweep with deferred revisits: every original entry is examined exactly once, exactly those in the area go, and the rest is a heap, although each repair moves entries under the sweep |
| `TickSweep.SweepDefers` | src/world/ticks/heap.rs:206-215 | when a repair carries the unseen last entry to a place already passed, giving it a ticket keeps what was examined apart from what was not |
| `TickSweep.RevisitRemoves` | src/world/ticks/heap.rs:217-223 | removing a deferred entry keeps every other ticket on its own entry, wherever the repair carries it |
| `TickSweep.Revisits.Swapped` | src/world/ticks/heap.rs:142-151 | a swap moves both entries' tickets, and each ticket still names the place of its entry |
| `TickSweep.Revisits.Take` | src/world/ticks/heap.rs:152-157 | a ticket gives the place its entry has come to, and is used up |
| `TickTypes.ContainedTickInContainedChunk` | src/world/ticks.rs:108-134 | skipping chunks by their column never skips a chunk that holds a contained tick |
| `TickState.UpdateKeepsIndex` | src/world/ticks.rs:1158-1172 | after a queue changes, one update of its own index entry keeps every registered nonempty queue indexed at its head's trigger time |
| `TickPhase.ScanDue` | src/world/ticks.rs:746-773 | the scan moves exactly the due eligible chunks from the scheduling index to the ready heap and leaves all others indexed |
| `TickPhase.LeastAmongDue` | src/world/ticks.rs:774-801 | a head that no ready entry strictly precedes is minimal in (priority, sub-order) among all due eligible heads, so batching within one chunk changes nothing |
| `TickPhase.DrainChunk` | src/world/ticks.rs:778-801 | taking several ticks of one chunk in a row is a greedy run: each was selectable at its turn |
| `TickPhase.ReturnReady` | src/world/ticks.rs:822-837 | chunks still waiting when the cap is reached return to the index, which is then exact again |
| `TickPhase.Collect` | src/world/ticks.rs:729-839 | collection is a greedy run from the old queues; every selected tick was due, and below the cap every tick left in a registered eligible queue is for a later time |
| `TickState.GreedyConserves` | src/world/ticks.rs:729-839 | per chunk, the ticks queued before are those queued after plus those selected, as multisets; nothing else of the chunk changes |
| `TickState.GreedySelectsDue` | src/world/ticks.rs:864-875 | every selected tick was due, in a registered eligible chunk, at its turn |
| `TickOwner.CollectedOnly` | src/world/ticks.rs:729-839 | a collection changes only the queues of its own domain |
| `TickOutcome.PhaseIsDetermined` | src/world/ticks.rs:729-839 | without ties, any two complete collections of the same queues up to the same cap select the same ticks in the same order, whatever order the heaps keep inside |
| `TickOutcome.RunsAgree` | src/world/ticks.rs:729-839 | two greedy runs over the same queued ticks agree step by step as far as both go |
| `TickQueues.ScheduleCreated` | src/world/ticks.rs:687-709 | a duplicate or a full queue changes nothing; otherwise exactly that tick is gained and the index follows the head |
| `TickQueues.Unpack` | src/world/ticks.rs:550-579 | unpacking materialises every saved entry, duplicates included, with consecutive negative sub-orders, and reindexes a registered chunk |
| `TickQueues.PushSaved` | src/world/ticks.rs:561-575 | pushing the unpacked entries one by one keeps the index at the current head throughout |
| `TickArea.ClearQueue` | src/world/ticks.rs:896-949 | one queue loses exactly its ticks inside the area; the index entry is touched only when the head changed |
| `TickArea.ClearChunks` | src/world/ticks.rs:896-949 | exactly the in-area live ticks of registered chunks go, and the count says how many |
| `TickArea.ClearSelected` | src/world/ticks.rs:931-947 | the repaired cursor still separates the surviving returned prefix from the surviving remainder, both in order |
| `TickCopy.GatherSnapshot` | src/world/ticks.rs:1185-1228 | the snapshot is the selected ticks of the area in order, then each registered queue's, chunks in ascending address order |
| `TickCopy.Decide` | src/world/ticks.rs:1082-1121 | the batch is admitted exactly when every type is known and every chunk has room for its accepted copies; a refusal names a real cause |
| `TickCopy.AcceptedIsAdmissible` | src/world/ticks.rs:1106-1133 | what was decided can be scheduled tick by tick without meeting a duplicate or a full queue |
| `TickCopy.AcceptedCovers` | src/world/ticks.rs:1109-1120 | a copy left out had its identity queued already, or accepted earlier in the batch |
| `TickCopy.ScheduleAll` | src/world/ticks.rs:1122-1133 | no step of the commit can fail, and together the queues gain exactly the batch |
| `TickCopy.CommitCopy` | src/world/ticks.rs:1055-1137 | either an error with all queues unchanged, or exactly the accepted batch scheduled within every chunk's capacity |
| `TickCopy.CopyFollowsOriginals` | src/world/ticks.rs:1089-1093 | a copy comes after every original if and only if its shifted sub-order does not overflow 64 bits |
| `TickCopy.CopyBeforeOriginals` | src/world/ticks.rs:1089-1093 | a concrete order range for which the last copy comes before every original, and before the first copy |
| `TickCopy.CopyDoublesRange` | src/world/ticks.rs:1089-1093 | without overflow originals and copies together span twice the order range, so repeated copies reach the overflow |
| `TickCopy.CopiesKeepOrder` | src/world/ticks.rs:1089-1093 | two copies keep the order of their originals if and only if the overflow does not separate them |
| `TickOwner.ScheduledTickOwner.New` | src/world/ticks.rs:370-418 | refused exactly when a limit or type count is zero, the phase limit is too large or the snapshot size overflows; otherwise every invariant holds, with no chunks and no phase |
| `TickOwner.ScheduledTickOwner.RegisterChunk` | src/world/ticks.rs:427-463 | registers a new chunk or reattaches a detached one with its ticks; each refusal has its cause and changes nothing |
| `TickOwner.ScheduledTickOwner.LoadPendingChunk` | src/world/ticks.rs:469-544 | saved ticks of the chunk are loaded detached, others dropped; every error cause in order, nothing changed on error |
| `TickOwner.ScheduledTickOwner.UnpackChunk` | src/world/ticks.rs:550-579 | both domains' saved entries become live ticks; other chunks and capacities are kept |
| `TickOwner.ScheduledTickOwner.SetEligible` | src/world/ticks.rs:625-629 | changes only the eligibility of a registered chunk |
| `TickOwner.ScheduledTickOwner.DetachChunk` | src/world/ticks.rs:633-639 | a detached chunk keeps its ticks and leaves both scheduling indexes |
| `TickOwner.ScheduledTickOwner.DiscardDetachedChunk` | src/world/ticks.rs:643-651 | only a detached chunk can be discarded; all other chunks stay |
| `TickOwner.ScheduledTickOwner.Schedule` | src/world/ticks.rs:656-685 | a known type consumes one sub-order whatever the outcome; only an added tick changes a queue, by exactly that tick |
| `TickOwner.ScheduledTickOwner.HasScheduled` | src/world/ticks.rs:711-718 | a positive answer implies a queued or still pending tick; for a registered chunk the answer is that of its duplicate set; while all duplicate sets are exact it is right |
| `TickAnswers.LoadedAnswersRightExactly` | src/world/ticks.rs:469-544 | after a chunk was loaded, every question about a registered chunk is answered right in every continuation by the owner's other operations if and only if no identity was saved twice |
| `TickAnswers.RepeatGoesWrong` | src/world/ticks.rs:729-839 | for every saved list that repeats an identity: registering, unpacking and phases that take one tick each reach a queued identity the duplicate set denies |
| `TickAnswers.LoadedIsPrecise` | src/world/ticks.rs:469-544 | right after a load the duplicate set is precise, whatever was saved |
| `TickAnswers.PhasesGoWrong` | src/world/ticks.rs:729-839 | from any state with an identity live twice in a registered eligible chunk, phases alone reach a wrong answer, whatever other chunks hold |
| `TickAnswers.RunKeepsAllExact` | src/world/ticks.rs:427-975 | every run of the owner's operations without loads keeps every duplicate set exact |
| `TickAnswers.SavedTwice` | src/world/ticks.rs:711-718 | the smallest failing run of a real owner: one tick saved twice, one taken, and the other is denied although it is queued |
| `TickExact.ExactHolds` | src/world/ticks.rs:711-718 | in an exact queue the duplicate set answers precisely whether an identity is queued or pending |
| `TickExact.GainKeepsExact` | src/world/ticks.rs:687-709 | scheduling ticks of distinct new identities keeps a queue exact |
| `TickExact.PopKeepsExact` | src/world/ticks.rs:864-875 | selection keeps a queue exact |
| `TickExact.UnpackKeepsExact` | src/world/ticks.rs:550-579 | unpacking keeps a queue exact |
| `TickExact.ClearKeepsExact` | src/world/ticks.rs:896-949 | clearing keeps an exact queue exact, also while saved entries inside the area are still pending |
| `TickExact.GreedyKeepsAllExact` | src/world/ticks.rs:729-839 | a phase collection keeps every queue of both domains exact |
| `TickExact.ClearKeepsAllExact` | src/world/ticks.rs:896-949 | clearing an area keeps every queue exact |
| `TickExact.BatchKeepsAllExact` | src/world/ticks.rs:1122-1133 | committing a copied batch keeps every queue exact |
| `TickOwner.ScheduledTickOwner.BeginPhase` | src/world/ticks.rs:729-839 | a phase starts only alone and within the limit; then the selection is a complete greedy collection of the old queues, of due ticks only, and below the cap no tick left in a registered eligible queue is due |
| `TickOwner.ScheduledTickOwner.WillTickThisPhase` | src/world/ticks.rs:841-860 | exact when first asked; later yes only for what remains or is stale, always yes for what is stale, and no for what remains only after another tick of that identity was returned |
| `TickOwner.AskClearAsk` | src/world/ticks.rs:891-949 | asking, clearing and asking again about any tick that remained: the second answer is yes and nothing of that identity remains |
| `TickOwner.ScheduledTickOwner.NextDue` | src/world/ticks.rs:864-875 | returns the selected ticks in order, once each, then nothing |
| `TickOwner.ScheduledTickOwner.FinishPhase` | src/world/ticks.rs:877-890 | a phase ends only when every selected tick was returned |
| `TickOwner.ScheduledTickOwner.ClearArea` | src/world/ticks.rs:896-949 | removes exactly the in-area live and selected ticks of the domain; the cursor still separates returned from remaining; exactly the observed identities of the area become stale |
| `TickOwner.ScheduledTickOwner.CopyArea` | src/world/ticks.rs:954-975 | copies the area as one batch, or errors with all queues unchanged |
| `World.PackRoundTrips` | src/server/chunk_sender.rs:475-484 | packing chunk positions into 64-bit keys loses nothing, and only the origin packs to the zero key |
| `World.UnpackRoundTrips` | src/server/chunk_sender.rs:475-484 | every 64-bit key is the key of a position |
| `PendingPositions.GrowthFits` | src/server/chunk_sender.rs:505-559 | exceeding three quarters within the limit always leaves a doubled table inside the storage reserved once |
| `PendingPositions.PendingSet.constructor` | src/server/chunk_sender.rs:505-516 | an empty set over tables sized for the limit |
| `PendingPositions.PendingSet.Bucket` | src/server/chunk_sender.rs:524-531 | the probe ends at the key, or at an empty slot if and only if the key is absent |
| `PendingPositions.PendingSet.Contains` | src/server/chunk_sender.rs:533-539 | membership of the mathematical set, the zero key apart |
| `PendingPositions.PendingSet.Insert` | src/server/chunk_sender.rs:541-559 | only a new member can be refused, when the set is full; otherwise exactly that member is added, growing within the reserved tables |
| `PendingPositions.PendingSet.Remove` | src/server/chunk_sender.rs:561-587 | removes exactly that member; all others stay reachable after the backward shift and the shrink |
| `PendingPositions.PendingSet.ShiftBack` | src/server/chunk_sender.rs:568-580 | backward-shift deletion stops, removes one key and leaves every other key on its probe path |
| `PendingPositions.PendingSet.Rehash` | src/server/chunk_sender.rs:589-606 | rehashing into the other table keeps the set, for growth and shrink alike |
| `PendingPositions.PendingSet.Stream` | src/server/chunk_sender.rs:608-616 | every member is streamed exactly once, the zero key first and then in bucket order |
| `Probing.ShiftStep` | src/server/chunk_sender.rs:568-580 | one step of the backward shift keeps the repair invariant and comes closer to the end of the cluster |
| `Nearest.StableSort` | src/server/chunk_sender.rs:621-645 | the bottom-up merge sort is sorted by distance and keeps equal distances in order, touching only its range |
| `Nearest.StableSortIsUnique` | src/server/chunk_sender.rs:621-645 | sorted with equal elements in order determines the result: any two stable sorts agree |
| `Nearest.FilterAfterSort` | src/server/chunk_sender.rs:621-645 | sorting everything and then dropping unready entries equals dropping first and then sorting |
| `Nearest.SameOrderIsPermutation` | src/server/chunk_sender.rs:621-645 | a stable rearrangement is a permutation |
| `Nearest.MergePass` | src/server/chunk_sender.rs:624-643 | one pass merges neighbouring runs into sorted runs of doubled width, stably |
| `Selection.Partition` | src/server/chunk_sender.rs:695-707 | the partition puts everything strictly nearer before the pivot and nothing nearer after it, moving nothing outside its range |
| `Selection.Select` | src/server/chunk_sender.rs:685-727 | within the round limit or by the fallback sort, the nearest come first and the mark splits them too |
| `Selection.Least.Offer` | src/server/chunk_sender.rs:670-683 | at any time no rejected position is nearer than the threshold, and kept plus rejected is everything offered |
| `Selection.Least.Trim` | src/server/chunk_sender.rs:685-727 | trimming a full buffer keeps that invariant and tightens the threshold to the farthest kept position |
| `Selection.Least.Finish` | src/server/chunk_sender.rs:729-734 | a distance-sorted sub-multiset of the offers, as many as asked or all, with no left-out position nearer than a kept one |
| `Sender.StreamIsWaiting` | src/server/chunk_sender.rs:608-616 | the streamed keys are the waiting positions, each once |
| `Sender.ChunkSender.New` | src/server/chunk_sender.rs:103-132 | refused exactly for an impossible pending limit, or when tables, candidates and scratch exceed the control bytes; otherwise nothing is pending |
| `Sender.ChunkSender.MarkPending` | src/server/chunk_sender.rs:153-155 | adds exactly that position to the waiting set, or says it was there or the set is full |
| `Sender.ChunkSender.DropChunk` | src/server/chunk_sender.rs:159-174 | a waiting position is withdrawn silently; otherwise a living player is told to forget it, if the queue has room |
| `Sender.ChunkSender.Acknowledge` | src/server/chunk_sender.rs:177-188 | an acknowledgement opens the window of ten; the request is clamped into its range, and with nothing outstanding the quota is one |
| `Sender.ChunkSender.BeginTick` | src/server/chunk_sender.rs:194-222 | within the window quota accrues up to its cap; a plan names waiting positions once and nearest first, all of them for a memory connection and as many as the quota otherwise, leaving out none that is nearer; tick numbers rise |
| `Sender.ChunkSender.TryAdmit` | src/server/chunk_sender.rs:242-310 | every outcome in order, and readiness is invalid exactly when an answer is for another position or empty; an admitted batch holds every ready answer in the order of the candidates, and exactly those positions stop waiting |
| `Sender.PackedPackets` | src/server/chunk_sender.rs:280-297 | a packed batch is written as Start, each chunk's own bytes in order, Finish with the count |
| `Sender.Withdraw` | src/server/chunk_sender.rs:298-302 | each delivered position was still waiting and is removed once |
| `Delivery.OpenWrite` | src/server/chunk_sender.rs:407-442 | writing the front packet extends the emitted stream by exactly that packet of the admitted groups |
| `Delivery.ChunkDeliveryQueue.New` | src/server/chunk_sender.rs:368-393 | refused exactly when no group may be held, the table size overflows or its capacity exceeds the byte limit; otherwise an empty open queue charged for its table |
| `Delivery.ChunkDeliveryQueue.FrontPacket` | src/server/chunk_sender.rs:407-425 | the front group's packet at its cursor, or nothing |
| `Delivery.ChunkDeliveryQueue.PacketWritten` | src/server/chunk_sender.rs:427-442 | the emitted packets are always whole groups in admission order plus a prefix of the front group; a finished batch gives its bytes back |
| `Delivery.ChunkDeliveryQueue.Fail` | src/server/chunk_sender.rs:444-448 | closing cuts the stream once: what was emitted stays a prefix, nothing follows |
| `Delivery.ChunkDeliveryQueue.Push` | src/server/chunk_sender.rs:269-297 | a checked group is appended behind all others within the limits |
| `Preparation.SectionPreparationOwner.New` | src/world/preparation.rs:141-193 | refused exactly when a limit is zero, the cache limit exceeds the sections or its bytes overflow; otherwise coherent with nothing loaded |
| `Preparation.SectionPreparationOwner.LoadChunk` | src/world/preparation.rs:205-226 | a loaded chunk gets a fresh generation; refusals change nothing |
| `Preparation.SectionPreparationOwner.LoadSection` | src/world/preparation.rs:231-286 | every error in order, including the exact byte allowance; on success the palettes show the given cells, the ledger stays exact and the revision is fresh |
| `Preparation.SectionPreparationOwner.SetBlock` | src/world/preparation.rs:302-332 | every outcome in order; a change stores exactly one cell and the counts and revokes the cache entry, anything else changes nothing |
| `Preparation.SectionPreparationOwner.SetBiome` | src/world/preparation.rs:334-361 | every outcome in order; a change stores exactly one biome cell under a fresh revision, anything else changes nothing |
| `Preparation.SectionPreparationOwner.SetCounts` | src/world/preparation.rs:363-382 | every outcome in order; a change replaces only the counts under a fresh revision |
| `Preparation.SectionPreparationOwner.Changed` | src/world/preparation.rs:575-596 | a changed source gets a fresh revision, loses its cached bytes, and every job for the old source is cancelled |
| `Preparation.SectionPreparationOwner.Request` | src/world/preparation.rs:386-400 | demand is recorded; the section is queued only if neither cached bytes nor a current job can serve it |
| `Preparation.SectionPreparationOwner.Drive` | src/world/preparation.rs:405-475 | every job is polled once and its answer decides the cache order and the failures; the longest-queued dirty sections are submitted in order, each after a reservation that was granted, and the report says why submission stopped and what was evicted |
| `Preparation.SectionPreparationOwner.TakeFinished` | src/world/preparation.rs:407-415 | every pending job is asked exactly once; those unfinished stay, and each answer moves the cache order and the failures as its fate says |
| `Preparation.SectionPreparationOwner.SubmitDirty` | src/world/preparation.rs:416-473 | a section leaves the dirty queue exactly when its reservation was granted and its job accepted; submission ends when the queue is empty, the job limit is reached, a reservation is refused beyond retry, or a job is refused, and the report says which |
| `Preparation.SectionPreparationOwner.Cached` | src/world/preparation.rs:480-484 | whenever there is an answer, its key is the current key and its bytes are the encoding of the current cells |
| `Preparation.SectionPreparationOwner.UnloadChunk` | src/world/preparation.rs:492-512 | exactly the chunk's sections, bytes and queue entries go, and its jobs are cancelled |
| `Preparation.SectionPreparationOwner.Reload` | src/world/preparation.rs:517-533 | a new epoch with nothing loaded; revisions and generations never repeat |
| `Preparation.SectionPreparationOwner.EvictOldest` | src/world/preparation.rs:598-608 | eviction takes exactly the entry published longest ago, never a source or a demand |
| `Preparation.SectionPreparationOwner.Publish` | src/world/preparation.rs:610-653 | a completion is published if and only if its key is still current and it succeeded; then exactly the oldest other entry leaves a full cache and the section becomes the newest; a failed current one is recorded, a stale one changes nothing |
| `PreparationState.DirtyHasNoJob` | src/world/preparation.rs:386-400 | no job in flight has a dirty section's key, so no two jobs ever share a key |
| `Preparation.FatesSplit` | src/world/preparation.rs:407-415 | splitting the jobs into those taken and those waiting splits every fate exactly |
| `Preparation.TryTake` | src/runtime/mod.rs:424-434 | cancellation suppresses any result, however late it came |
| `PreparationState.JobsOutdated` | src/world/preparation.rs:575-596 | a fresh revision makes every earlier job of the section stale, and all of them are then cancelled |
| `PreparationState.JobsUnaffected` | src/world/preparation.rs:231-286 | no old job can be current for a newly loaded section |
| `PreparationState.JobsUnloaded` | src/world/preparation.rs:492-512 | unloading cancels the chunk's jobs and touches no other |
| `PreparationState.BytesUpdate` | src/world/preparation.rs:302-332 | replacing one section moves the exact source byte count by the difference |
| `Preparation.ChangeKeeps` | src/world/preparation.rs:575-596 | the whole invariant survives a change: sources, cache, dirty queue, cache order, jobs and bytes |
| `Preparation.SubmitKeeps` | src/world/preparation.rs:457-467 | submitting moves a section from the dirty queue to the jobs, flagged exactly once throughout |
| `Preparation.UnloadKeeps` | src/world/preparation.rs:492-512 | the whole invariant survives unloading a chunk |
| `Wire.WriteVarint` | src/wire/mod.rs:113-129 | writes the encoding over the start of the buffer and nothing else; a buffer too small is left as it was, with the sizes in the error |
| `Wire.VarintBytes` | src/world/section.rs:660-664 | five bytes are always enough |
| `Wire.ReadVarint` | src/wire/mod.rs:56-70 | takes the one well-formed prefix of at most five bytes, and fails exactly when there is none |
| `Wire.ReadAfterWrite` | src/wire/mod.rs:56-70 | reading a written integer gives it back and stops where writing ended, whatever follows |
| `Wire.LengthAgrees` | src/wire/mod.rs:94-100 | the length computed from leading zeros is the length of the encoding |
| `Wire.VarintIsVarint` | src/wire/mod.rs:113-129 | a written integer is well formed and carries its value |
| `PackedWords.WordDigit` | src/world/section/packed.rs:79-88 | shift and mask read exactly one field of a word |
| `PackedWords.GetCell` | src/world/section/packed.rs:51-54 | a lookup gives the cell, or nothing past the end |
| `PackedWords.SetCell` | src/world/section/packed.rs:56-65 | returns the cell's old value, and storing changes no other cell; index and range errors change nothing |
| `PackedWords.NewPacked` | src/world/section/packed.rs:15-29 | fresh storage holds zero in every cell; width, length and allowance errors in order |
| `PackedWords.HoldsUnique` | src/world/section/packed.rs:51-65 | packed words determine the cells |
| `PackedWords.PackAllLength` | src/world/section/packed.rs:95-106 | the number of words a width and length need |
| `Palette.PaletteScratch.Find` | src/world/section.rs:585-598 | the palette index of a value is its place in first-use order; probing ends |
| `Palette.PaletteScratch.Insert` | src/world/section.rs:599-615 | the scratch lists the distinct values in first-use order; the 257th only marks overflow |
| `Palette.StoreTabled` | src/world/section.rs:599-615 | at most 256 ids in 512 slots always leave an empty slot |
| `Paletted.Build` | src/world/section.rs:162-229 | every error in order; on success a container at the least or given width that shows exactly the input, within the allowance |
| `Paletted.NeededIsUsable` | src/world/section.rs:180-191 | the width chosen for the cells can hold them |
| `Paletted.Get` | src/world/section.rs:248-263 | reads the dense cell through single, indirect and direct storage |
| `Paletted.Set` | src/world/section.rs:268-310 | a write changes only its own cell in any storage and returns the old value; a single value grows to the least palette and a full palette by one bit or to registry IDs, and only then; every error in order |
| `Paletted.GrowthFits` | src/world/section.rs:291-305 | the next width is usable and the rebuilt container has room for the value |
| `Paletted.GrowsOnce` | src/world/section.rs:306-308 | the write into the rebuilt container never grows again |
| `Paletted.GrownHeader` | src/world/section.rs:298-307 | growth from a palette without repeats keeps the bit header telling indirect from direct storage |
| `SectionCodec.Repack` | src/world/section.rs:313-323 | the cells stay and the width becomes the least; it succeeds exactly when both storages fit the allowance together |
| `SectionCodec.NetworkLenAgrees` | src/world/section.rs:325-338 | the length reserved is the length written |
| `SectionCodec.WriteNetwork` | src/world/section.rs:342-359 | appends the container, or nothing when spare capacity is short |
| `SectionCodec.ReadNetwork` | src/world/section.rs:366-454 | a written container is recovered with all its cells and the suffix is left, direct words behind any header above the palette widths; whatever is accepted shows valid cells within the limit, and tells by its own header how it is stored if and only if it came as a palette or the registry outgrows palettes |
| `SectionCodec.ReadWords` | src/world/section.rs:399-434 | every key is checked against its bound, unused bits are cleared, and written words come back |
| `SectionCodec.ReadPalette` | src/world/section.rs:385-398 | a palette holds between one and two to the width known ids, read back as written |
| `SectionCodec.MaskedPacks` | src/world/section.rs:428-433 | clearing the unused bits leaves exactly the packed form of the cells |
| `SectionCodec.DirectHeaderMisleads` | src/world/section.rs:342-359 | the bit header fails to announce direct storage if and only if the registry is no larger than the largest palette |
| `SectionCodec.MisleadingGrowth` | src/world/section.rs:268-310 | a concrete palette with repeats in a registry of two: one write grows it into direct storage whose header announces a palette |
| `SectionCodec.ForeignHeader` | src/world/section.rs:366-454 | a concrete input with a foreign header: it is read as direct storage, whose own output announces a palette |
| `Paletted.DirectHeaderIff` | src/world/section.rs:106-123 | the direct width exceeds every palette width exactly when the registry outgrows every palette |
| `SectionCodec.EncodeDense` | src/world/section.rs:618-651 | the allocation-free encoder appends exactly the dense encoding |
| `SectionCodec.EncoderAgrees` | src/world/section.rs:618-651 | the encoder emits the same bytes as building a container from the cells and writing it |
| `SectionCodec.CompactExists` | src/world/section.rs:162-229 | every valid dense array has a compact container whose bytes are the encoder's |
| `SectionCodec.DenseBytesBound` | src/world/section.rs:16 | no registry and no cells make a container longer than its direct form at 31 bits |
| `SectionCodec.PrepareSection` | src/world/section.rs:542-564 | every error in order; nothing is written on failure; output never exceeds the section maximum |
| `SectionCodec.ReadSection` | src/world/section.rs:482-536 | the encoder's bytes give back the counts and every cell and leave the suffix; whatever is read is valid and within the limit |
| `BigEndian.TakePut` | src/world/section.rs:640-649 | a big-endian number comes back from its bytes |
| `BigEndian.PutTake` | src/world/section.rs:428-433 | bytes come back from the number they denote |
| `CpuPool.StartOk` | src/runtime/mod.rs:279-300 | a fresh pool satisfies the ledger invariant |
| `CpuPool.CountersFollow` | src/runtime/mod.rs:279-343 | every step moves each counter by exactly what the job's own share of it changes |
| `CpuPool.KeepsBalance` | src/runtime/mod.rs:279-343 | in every step slots, bytes, queued, running and finished counts equal the sums over the live jobs |
| `CpuPool.KeepsLimits` | src/runtime/mod.rs:279-300 | slots, bytes and queue length stay within their limits in every step |
| `CpuPool.KeepsStaff` | src/runtime/mod.rs:470-502 | a worker and the job it holds always name each other |
| `CpuPool.KeepsLine` | src/runtime/mod.rs:369-400 | the queue holds exactly the queued jobs, each once |
| `CpuPool.StepKeepsInv` | src/runtime/mod.rs:470-563 | every step of every client and worker keeps the whole invariant |
| `CpuPool.RunKeepsInv` | src/runtime/mod.rs:279-563 | so does every interleaving of steps |
| `CpuPool.ReachableIsBalanced` | src/runtime/mod.rs:279-343 | in every reachable state the ledger equals the live leases, stays in its limits, and every payload is charged somewhere |
| `CpuPool.JobPersists` | src/runtime/mod.rs:403-458 | stages never go back, cancellation and closing are never undone |
| `CpuPool.CancelledNeverYields` | src/runtime/mod.rs:410-434 | a task cancelled before take never yields bytes in any continuation |
| `CpuPool.QueueHasRoom` | src/runtime/mod.rs:388-390 | a submission always finds room reserved for it in the queue |
| `CpuPool.DrainedExactlyOnce` | src/runtime/mod.rs:319-328 | when every worker has left, every accepted job has run exactly once and been finished |
| `CpuPool.ClosingDrains` | src/runtime/mod.rs:306-316 | after close no step adds work and every worker step takes some away |
| `CpuPool.WorkersNeverWait` | src/runtime/mod.rs:313-328 | in a closed pool a worker that has not left always has an enabled step, whatever the consumers do |
| `PoolLock.PoolState.TryReserve` | src/runtime/mod.rs:279-300 | refuses with the first failing cause, closed before slots before bytes, and takes nothing, or takes one slot and the bytes |
| `PoolLock.PoolState.DropLease` | src/runtime/mod.rs:337-343 | returns one slot and the lease's bytes, never below zero |
| `PoolLock.PoolState.Enqueue` | src/runtime/mod.rs:369-400 | a closed pool refuses; otherwise the job joins the end of a queue that stays within its capacity |
| `PoolLock.PoolState.NextJob` | src/runtime/mod.rs:476-493 | an idle worker gets the oldest job, or leaves exactly when the pool is closed and the queue empty |
| `PoolLock.PoolState.FinishJob` | src/runtime/mod.rs:504-508 | running and completed counts follow the finished job |
| `PoolLock.PoolState.Close` | src/runtime/mod.rs:308-311 | closing changes nothing else |
| `PoolLock.ResidentBudget.TryAdopt` | src/runtime/storage.rs:286-317 | adoption charges the resident budget before the job lease ends, so the chunk is charged at every moment; refusal changes nothing |
| `PoolLock.ResidentBudget.DropResident` | src/runtime/storage.rs:337-343 | dropping a resident chunk returns exactly its bytes |
| `Nbt.ReadUnits` | src/nbt/read.rs:353-384 | modified UTF-8 (section 4.4.7 of the JVM Specification) gives back every sequence of UTF-16 units; other input fails |
| `Nbt.ReadUnit` | src/nbt/read.rs:363-384 | one encoded unit is decoded with its width, literal NUL and overlong forms accepted |
| `Nbt.WriteUnits` | src/nbt/write.rs:92-112 | every unit is written in one, two or three bytes |
| `Nbt.Mutf8Length` | src/nbt/write.rs:201-216 | the exact encoded length, or refusal exactly above sixteen bits |
| `Nbt.AscendingUnique` | src/nbt/mod.rs:91-116 | sorted unique entries are determined by what they map names to |
| `NbtCompound.FromEntries` | src/nbt/mod.rs:91-105 | the last value of every name survives, in ascending order; sorted unique input is unchanged |
| `NbtCompound.DedupSorted` | src/nbt/mod.rs:91-105 | the in-place dedup leaves the later value of each name in the earlier slot |
| `NbtCompound.GetEntry` | src/nbt/mod.rs:111-116 | binary search finds exactly what the compound maps the name to |
| `NbtCompound.InsertEntry` | src/nbt/mod.rs:120-136 | sets one name and no other, keeps the order, returns what it replaced |
| `NbtCompound.RemoveEntry` | src/nbt/mod.rs:149-154 | removes one name and no other, returns what was there |
| `NbtWrite.Writer.Payload` | src/nbt/write.rs:114-175 | appends the payload, or fails with the first error of format, depth or limit that the recursive size meets |
| `NbtWrite.Writer.List` | src/nbt/write.rs:177-198 | mixed lists are written as compounds, each element that needs it wrapped under the empty name |
| `NbtWrite.SizeIsLength` | src/nbt/write.rs:114-198 | a successful size is exactly the number of payload bytes |
| `NbtWrite.WriteNetwork` | src/nbt/write.rs:5-18 | succeeds exactly when the size does, with exactly those bytes appended; on error the output is intact |
| `NbtWrite.WriteNamed` | src/nbt/write.rs:23-45 | the same for a named root, whose End has neither name nor payload |
| `NbtRead.WireFacts` | src/nbt/write.rs:177-198 | a wrapped element is written, sized, charged and read exactly as a one-entry compound |
| `NbtRead.UnwrapNorm` | src/nbt/read.rs:289-297 | unwrapping what was read restores the element, also when it was itself a wrapper |
| `NbtRead.WidthOfValues` | src/nbt/read.rs:264-279 | the minimum width per element never promises more bytes than a written list has |
| `NbtRead.Reader.String` | src/nbt/read.rs:140-159 | a written string comes back, charged in units, and nothing after it is touched |
| `NbtRead.Reader.ReadListHead` | src/nbt/read.rs:252-284 | nothing is reserved that the remaining input cannot hold |
| `NbtRead.Reader.Payload` | src/nbt/read.rs:161-202 | whatever the writer wrote comes back with canonical floats, exact quota and allocation charges, and trailing bytes untouched |
| `NbtRead.Reader.List` | src/nbt/read.rs:252-299 | homogeneous, mixed and already wrapped lists all come back |
| `NbtRead.Reader.Compound` | src/nbt/read.rs:301-350 | entries come back sorted; of repeated names the last value wins |
| `NbtRead.ReadNetwork` | src/nbt/read.rs:14-25 | decoding an encoded tree is the identity up to canonical NaN and positive zero, given enough quota; failure consumes nothing |
| `NbtRead.ReadNamed` | src/nbt/read.rs:30-49 | a written named root comes back with its name, and the suffix is left |
| `NbtRead.NormKeepsPlain` | src/nbt/read.rs:161-202 | a tree comes back identical if and only if its floats are canonical |
| `NbtSize.NetworkEncodedLen` | src/nbt/size.rs:9-113 | the explicit-frame traversal equals the recursive size: same success, same first error, exact length |
| `NbtSize.Visit` | src/nbt/size.rs:17-59 | a visited value is sized, or its frame pushed; the frame array of 512 always has room because each frame takes a depth level |
| `NbtSize.Advance` | src/nbt/size.rs:60-108 | spent frames are popped until one yields its next child, closing wrappers on the way; the traversal ends |
| `NbtMatch.ExactIsEquality` | src/nbt/mod.rs:175-199 | exact comparison of canonical trees agrees with tag equality, both ways |
| `NbtMatch.Reflexive` | src/nbt/predicate.rs:157 | a canonical tree matches itself in every mode, so answering equal for one shared object is sound |
| `NbtMatch.AllSomeMeans` | src/nbt/predicate.rs:262-291 | a partial list wants some match for every expected element |
| `NbtMatch.EntriesMean` | src/nbt/predicate.rs:223-243 | a compound wants every expected name present with a matching value |
| `NbtMatch.ModesWeaken` | src/nbt/predicate.rs:141-294 | equal trees match strictly and strict matches are partial matches |
| `NbtCompare.CompareBudget.ChargeWork` | src/nbt/predicate.rs:78-89 | an exhausted counter stays exhausted |
| `NbtCompare.CompareBudget.StringOrder` | src/nbt/predicate.rs:345-353 | the charged comparison is the lexicographic order of code units |
| `NbtCompare.CompareBudget.Child` | src/nbt/predicate.rs:326-343 | the charged binary search finds exactly what the compound maps the name to |
| `NbtCompare.CompareBudget.PrimitiveEqual` | src/nbt/predicate.rs:355-409 | leaves are equal as in the recursive definition, which for anything but floats is built-in equality; work is charged within its bound |
| `NbtCompare.CompareBudget.Push` | src/nbt/predicate.rs:296-324 | stack growth charges each new buffer; each refusal has its stated cause |
| `NbtCompare.CompareBudget.Continue` | src/nbt/predicate.rs:221-292 | a finished child gives the frame's answer or its next child |
| `NbtCompare.CompareBudget.Run` | src/nbt/predicate.rs:141-294 | the recursive answer, whatever pairs share an object: nothing expected matches, a missing value does not, and exactness without floats is equality; every refusal is justified by a budget the comparison could exceed |
| `NbtTrees.CloneTag` | src/nbt/path/budget.rs:249-358 | the two-stack copy is equal to its input for every tree, succeeds exactly when the work suffices, and charges exactly that work |
| `NbtTrees.TooDeep` | src/nbt/path/budget.rs:218-247 | true exactly when some node would sit at the depth limit |
| `NbtTrees.GatherEntries` | src/nbt/path/budget.rs:328-348 | a compound's finished children are taken in reverse and restored to their own names |
| `NbtTrees.DropIterative` | src/nbt/mod.rs:206-261 | releases the tree without recursion, appending only into vacated slots |
| `NbtTrees.ReleasesEveryNodeOnce` | src/nbt/mod.rs:206-261 | every node is released exactly once |
| `NbtTrees.Peel` | src/nbt/mod.rs:206-261 | an original End is never confused with the end-of-chain mark |
| `NbtTrees.NextSibling` | src/nbt/mod.rs:206-261 | climbing past finished parents reaches exactly the next child waiting |
| `SnbtText.ReadBackIsIdentity` | src/snbt/read.rs:582-656 | reading gives the tree back if and only if it has no End and no empty key and its levels, a number array counting one, fit the limit; a clean tree that does not fit is too deep |
| `SnbtText.DecimalDigits` | src/snbt/write.rs:99-103 | decimal text has no leading zero unless the number is zero |
| `SnbtWrite.Writer.Quoted` | src/snbt/write.rs:105-134 | quote choice and escapes produce the quoted text or stop at the limit |
| `SnbtWrite.Writer.Key` | src/snbt/write.rs:136-158 | bare keys stay bare, all others are quoted |
| `SnbtWrite.Writer.Print` | src/snbt/write.rs:160-214 | the text of a tree, or a refusal that really is too long or too deep |
| `SnbtWrite.Writer.Numbers` | src/snbt/write.rs:226-253 | number arrays are written with prefix, suffixes and commas |
| `SnbtWrite.Write` | src/snbt/write.rs:9-22 | succeeds exactly when depth and length fit; on refusal the output is intact |
| `SnbtScan.FoldDecimal` | src/snbt/read.rs:825-867 | the digits printed for a number denote that number |
| `SnbtScan.Scanner.Digits` | src/snbt/read.rs:727-752 | one run of digits that neither starts nor ends with an underscore |
| `SnbtScan.Scanner.AfterZero` | src/snbt/read.rs:758-783 | after a printed zero a byte suffix is not taken for a binary prefix |
| `SnbtScan.Scanner.Integer` | src/snbt/read.rs:754-814 | a printed integer is read with its sign, digits and suffix |
| `SnbtScan.Scanner.Suffix` | src/snbt/read.rs:787-806 | a lone letter s is a type suffix, not a sign prefix |
| `SnbtScan.Scanner.IntegerValue` | src/snbt/read.rs:825-867 | a value fails exactly when out of range or a signed unsigned literal; the minimum integers are in range |
| `SnbtScan.Scanner.Float` | src/snbt/read.rs:928-1013 | a printed integer never scans as a floating-point number |
| `SnbtScan.Scanner.Escape` | src/snbt/read.rs:486-578 | every printed escape gives its unit back |
| `SnbtScan.Scanner.Quoted` | src/snbt/read.rs:470-580 | a printed string gives back any sequence of UTF-16 units and leaves what follows |
| `SnbtRead.FirstUnit` | src/snbt/read.rs:333-342 | the first unit of a printed value selects the branch that reads it |
| `SnbtRead.Number` | src/snbt/read.rs:884-913 | a printed integer tag comes back at its own width |
| `SnbtRead.WordValue` | src/snbt/read.rs:362-468 | words are booleans, operations or strings; the printed End comes back as a string |
| `SnbtRead.Value` | src/snbt/read.rs:333-342 | a printed value is read back and the input after it is left alone |
| `SnbtRead.KeyName` | src/snbt/read.rs:590-598 | a printed key is read back up to its colon |
| `SnbtRead.Compound` | src/snbt/read.rs:582-616 | a printed compound comes back, or is refused exactly for an empty key or an unreadable value inside |
| `SnbtRead.List` | src/snbt/read.rs:618-656 | printed lists and number arrays come back |
| `SnbtRead.ArrayInteger` | src/snbt/read.rs:715-721 | a suffix wider than the array's is refused |
| `SnbtRead.ParseUtf16` | src/snbt/read.rs:26-32 | parsing printed text gives the tree back if and only if it is clean and its levels, arrays counted, fit the depth limit; a clean tree that does not fit is refused as too deep |
| `SnbtRead.ArrayAtTheLimit` | src/snbt/read.rs:618-636 | a list holding one int array prints at depth one and is refused there by the reader |
| `SnbtRead.PrintsButDoesNotRead` | src/snbt/read.rs:618-636 | the clean trees that print but do not read under one limit are exactly those that only their number arrays push over it, by one level |
| `SnbtRead.ParsePrefix` | src/snbt/read.rs:36-51 | the same for printed text with something after it, which is left, and the length taken is reported |
| `ViewGeometry.Effective` | src/world/view.rs:17-31 | a player sees as far as requested, no further than the server allows and no less than two chunks |
| `ViewGeometry.DistanceNeverOverflows` | src/world/view.rs:140-160 | the 64-bit sum of squares cannot overflow for any coordinates |
| `ViewGeometry.AxisIsBeyond` | src/world/view.rs:147-155 | near an admitted origin the wrapping axis distance is the distance on the plane |
| `ViewGeometry.NewView` | src/world/view.rs:93-116 | a view is admitted exactly when its scan and the step past it stay inside the coordinates |
| `ViewGeometry.ContainsIsDistance` | src/world/view.rs:127-130 | a positioned view contains a chunk exactly when the squares of its distances past the border sum to less than the square of the view distance; it is then in bounds |
| `ViewGeometry.WrapsAtTheEdge` | src/world/view.rs:140-160 | a concrete center at the edge, refused by admission, for which the wrapping test would accept a chunk across the world |
| `ViewGeometry.Next` | src/world/view.rs:181-197 | the scan takes cells off the front one by one |
| `ViewGeometry.WholeScan` | src/world/view.rs:168-198 | a fresh scan reports every cell of its rectangle exactly once |
| `View.ChangesAreDifference` | src/world/view.rs:219-272 | each chunk of the symmetric difference is emitted exactly once with the right direction, for overlapping and disjoint views alike |
| `View.DrainingMovesView` | src/world/view.rs:219-272 | folding a drained difference turns the old tracked set into the new one |
| `View.VisitedBound` | src/world/view.rs:208-217 | at most 133 by 133 cells are visited when bounds overlap and two squares of 67 otherwise |
| `View.ViewDifference.constructor` | src/world/view.rs:220-238 | a new difference has all changes ahead |
| `View.ViewDifference.Next` | src/world/view.rs:244-271 | emits the next change and is done for good once none is left, visiting no cell twice |
| `View.PlayerView.BeginUpdate` | src/world/view.rs:326-343 | one update at a time; its pending events are the center change and the difference |
| `View.PlayerView.PendingEvent` | src/world/view.rs:348-352 | reading repeatedly gives the same event |
| `View.PlayerView.AcknowledgeEvent` | src/world/view.rs:356-363 | acknowledging applies exactly the pending event |
| `View.PlayerView.FinishUpdate` | src/world/view.rs:365-373 | only a drained update takes effect, and then exactly the new view is tracked |
| `View.EventsMoveView` | src/world/view.rs:326-373 | applying all events of an update moves the tracked set from the old view to the new |
| `HeightColumns.SetColumnEffect` | src/world/heightmap.rs:371-375 | a packed write changes exactly one column |
| `HeightColumns.PaddingKept` | src/world/heightmap.rs:371-375 | a packed write keeps the bits past the last column of each word |
| `Heightmap.HeightBitsFit` | src/world/heightmap.rs:515-517 | the width is the least that holds every height of the dimension |
| `HeightSource.FromSections` | src/world/heightmap.rs:142-175 | a snapshot is accepted exactly when every section's states are known and its count is right |
| `HeightSource.ReadsAsStored` | src/world/heightmap.rs:200-214 | if no kind of air is told from plain air, a cell matches as what is stored in it, although a section counted empty reads as plain air |
| `HeightSource.EditIsLocal` | src/world/heightmap.rs:200-214 | then one stored edit changes what its own cell matches and nothing else, also when it makes its section counted empty or nonempty |
| `HeightSource.PlainAirIsClear` | src/world/storage/registry.rs:431-439 | a state matches no map if and only if its flags are those of ordinary air |
| `HeightSource.NothingAbove` | src/world/heightmap.rs:290-293 | starting below the highest nonempty section misses nothing |
| `HeightSource.PrimingFindsSurface` | src/world/heightmap.rs:288-301 | what priming stores is the surface, or leaves alone a column where nothing stops, if plain air does not count |
| `HeightSource.SurfaceIsUnique` | src/world/heightmap.rs:288-301 | a column has one surface |
| `Heightmap.PrimedColumn` | src/world/heightmap.rs:288-301 | priming sets each column from its own blocks and no other; a column where nothing matches keeps what it had |
| `Heightmap.PrimedIndexes` | src/world/heightmap.rs:288-301 | a primed fresh map is right in every column |
| `Heightmap.PrimingIsRightExactly` | src/world/heightmap.rs:288-301 | priming a fresh map is right for every valid world of a registry if and only if plain air matches nothing of that kind |
| `Heightmap.AllAirPrimesWrong` | src/world/heightmap.rs:288-301 | the failing input: a world of nothing but matching air keeps the bottom |
| `Heightmap.NewSurfaceIsRight` | src/world/heightmap.rs:336-355 | after one stored edit the incremental result is the column's surface, if no kind of air is told from plain air |
| `Heightmap.UpdatedColumn` | src/world/heightmap.rs:320-356 | an update moves no column but the edited one |
| `Heightmap.UpdateKeepsIndex` | src/world/heightmap.rs:320-356 | after one stored edit the update keeps every column right, if no kind of air is told from plain air |
| `Heightmap.UpdateIsRightExactly` | src/world/heightmap.rs:320-356 | the update is right after every stored edit of every world of a registry if and only if no kind of air is told from plain air |
| `Heightmap.BlockAmongVariants` | src/world/heightmap.rs:200-214 | a failing input: one block stored in a section of a told-apart kind of air changes columns the update does not touch |
| `Heightmap.VariantAmongAir` | src/world/heightmap.rs:200-214 | the failing input of a registry of air alone: a stored kind of air still reads as plain air |
| `Heightmap.HistoryIsRight` | src/world/heightmap.rs:288-356 | a primed map, updated after each edit, is right after any number of edits, if no kind of air matches it |
| `Heightmap.HistoryIsRightExactly` | src/world/heightmap.rs:288-356 | every maintained map of a registry is right after every history if and only if no kind of air matches it |
| `HeightmapStore.StoredHeightmap.New` | src/world/heightmap.rs:237-261 | a map is made exactly when its words fit the allowance, and then every column reads the bottom |
| `HeightmapStore.StoredHeightmap.FirstAvailable` | src/world/heightmap.rs:277-282 | the stored absolute height, or an invalid column |
| `HeightmapStore.StoredHeightmap.Set` | src/world/heightmap.rs:371-375 | afterwards the column reads the height stored, and every other column what it read before |
| `HeightmapStore.StoredHeightmap.Prime` | src/world/heightmap.rs:288-301 | the primed words, or nothing under another context: every column ends right above the highest block that stops it, or where it was if none does |
| `HeightmapStore.StoredHeightmap.Restore` | src/world/heightmap.rs:302-315 | words of the right length are taken bit for bit, otherwise the map is primed over what it holds |
| `HeightmapStore.StoredHeightmap.Update` | src/world/heightmap.rs:320-356 | every error in order and the exact new words; a map that was right before one stored edit is right after it, unless the map tells kinds of air apart |
| `HeightmapStore.PrimeTogether` | src/world/heightmap.rs:460-491 | the fused pass gives every map the words of priming it alone |
| `HeightmapStore.FromStored` | src/world/heightmap.rs:404-493 | required and stored kinds are opened within the allowance, fitting arrays restored bit for bit, all others primed from the bottom |
| `TickTypes.OrderMeans` | src/world/ticks/heap.rs:11-23 | the comparisons are the order of trigger times, then of the seven priorities as listed, then of creation |
| `TickTypes.BoundsMeans` | src/world/ticks.rs:108-127 | an area holds both its corners and all between them, and no position only if it is not valid |
| `TickHeap.RootIsEarliest` | src/world/ticks/heap.rs:11-52 | no queued tick is due before the root, and of those due with it none comes first by priority and creation |
| `TickOrder.NoHeadNoTick` | src/world/ticks.rs:746-773 | no eligible head is due if and only if no tick of a registered eligible queue is |
| `TickOrder.SelectedWasDue` | src/world/ticks.rs:729-839 | every selected tick was queued in its own registered eligible chunk, and due |
| `TickOrder.SelectedIsFirst` | src/world/ticks.rs:774-801 | at its turn a selected tick is the earliest of its chunk, and no other eligible chunk has a due head that goes first by priority and creation |
| `TickLaws.HereKeeps` | src/world/ticks.rs:469-544 | a load keeps exactly the saved ticks of its own chunk, in their order |
| `TickLaws.OutsideKeeps` | src/world/ticks.rs:931-947 | clearing keeps exactly the selected ticks outside the area, in their order |
| `TickLaws.InsideKeeps` | src/world/ticks.rs:1185-1228 | a snapshot takes exactly the ticks inside the area, in their order |
| `TickLaws.FromChunkKeeps` | src/world/ticks.rs:1122-1133 | the part of a batch or a selection that concerns a chunk is exactly its own ticks, in their order |
| `TickLaws.UnpackedMeans` | src/world/ticks.rs:561-575 | an unpacked tick keeps place, type and priority, is due after its delay, and comes before all created ones, in saved order |
| `TickLaws.ShiftedMeans` | src/world/ticks.rs:1082-1105 | a copy is moved by the offset and keeps type, priority and trigger time; where nothing overflows its order is shifted past all originals |
| `TickLaws.AscendingMeans` | src/world/ticks.rs:1203-1228 | chunk addresses ascend by x, and for one x by z |
| `TickLaws.GatheredOfChunk` | src/world/ticks.rs:1203-1228 | of a registered chunk the snapshot holds exactly the queued ticks inside the area, in heap order |
| `TickLaws.GatheredAscends` | src/world/ticks.rs:1203-1228 | the snapshot holds one chunk after another in ascending order |
| `TickLaws.AcceptedMeans` | src/world/ticks.rs:1106-1121 | a copy is accepted exactly if its chunk is registered and its identity is neither queued there nor earlier in the batch |
| `TickLaws.MissingMeans` | src/world/ticks.rs:1106-1121 | exactly the copies of no registered chunk count as missing |
| `Filters.KeepsOneWay` | src/server/chunk_sender.rs:255-310 | keeping exactly the entries of a kind, in order, has one result, whether ready chunks, ticks of an area or queue entries |
| `Preparation.FatesMean` | src/world/preparation.rs:610-652 | a cancelled job is discarded whatever became of it; of the others those that panicked fail and those that ended are published |
| `Preparation.OfFateKeeps` | src/world/preparation.rs:404-415 | the jobs of one fate are exactly those, in order |
| `Preparation.StaysCached` | src/world/preparation.rs:610-652 | a published result is still cached unless as many others as the cache holds were published after it |
| `Preparation.AccountedNext` | src/world/preparation.rs:416-470 | each submitted job had its own reservation, granted after retries that each followed an eviction |
| `Preparation.EndsBefore` | src/world/preparation.rs:416-420 | submission that ends without a refusal ran out of dirty sections or met the job limit |
| `Preparation.EndsUnadmitted` | src/world/preparation.rs:425-449 | a refused reservation is reported as the pool gave it: for good, or with nothing left to evict |
| `Preparation.EndsRefused` | src/world/preparation.rs:457-472 | a refused submission is reported as the pool gave it, and its section stays dirty |
| `PreparationState.WithoutKeeps` | src/world/preparation.rs:610-652 | taking one section out of a queue keeps the order of all others |
| `PreparationState.OutsideChunkKeeps` | src/world/preparation.rs:492-512 | unloading a chunk takes exactly its sections out of the queues and keeps the order of all others |
| `Sender.PresentMeans` | src/server/chunk_sender.rs:255-297 | the batch holds every ready answer and no other, each once, in the order of the candidates |
| `Sender.DeliveredMeans` | src/server/chunk_sender.rs:280-302 | the packets of a batch are those of the ready answers in order, and the withdrawn positions are exactly theirs |
| `Sender.MatchesMeans` | src/server/chunk_sender.rs:250-264 | readiness is refused exactly for a wrong count, another position or an empty packet |
| `Sender.TotalBytesMeans` | src/server/chunk_sender.rs:255-278 | every byte of every ready chunk is counted once |
| `Sender.ClampedMeans` | src/server/chunk_sender.rs:177-183 | a request inside the range is kept, one outside goes to the nearer end, and what is not a number to the lower end |
| `Sender.ChosenMeans` | src/server/chunk_sender.rs:199-217 | without quota for one chunk nothing is planned; otherwise the plan is everything waiting or as many as the quota, nearest first, with none left out that is nearer |
| `Nearest.DistanceMeans` | src/server/chunk_sender.rs:486-490 | within 32767 chunks the wrapping distance is the squared distance on the plane, and always congruent to it |
| `PendingPositions.FilledMeans` | src/server/chunk_sender.rs:608-616 | bucket order lists all but the empty buckets, each once |
| `PendingPositions.PhysicalMeans` | src/server/chunk_sender.rs:505-516 | the reserved tables have the least power of two of buckets, from 32 on, that the limit fills to three quarters at most |
| `World.PackMeans` | src/server/chunk_sender.rs:475-484 | x is the low word of a key and z the high word, both in two's complement |
| `World.WrapMeans` | src/server/chunk_sender.rs:486-490 | wrapping changes a value by whole turns only, and not at all inside its range |
| `NbtMatch.LeavesMatch` | src/nbt/predicate.rs:355-400 | leaves match in any mode if and only if they are the same, or NaN at the same width: all exponent bits and some fraction bit set |
| `NbtMatch.ExactMeansEqual` | src/nbt/predicate.rs:141-294 | an exact match of canonical trees without floats is equality |
| `NbtMatch.ListsMatch` | src/nbt/predicate.rs:182-222 | an empty list matches only an empty one; a partial list wants some match for every element and as many elements, any other list equal lengths and exact matches in order |
| `NbtMatch.CompoundsMatch` | src/nbt/predicate.rs:157-243 | a compound wants every expected name with a matching value, and no other names only in an exact match |
| `HeightSource.CountsMean` | src/world/storage/registry.rs:431-439 | for each of the six kinds, a cell counts if and only if its flags say so: not air, blocks motion, blocks motion or holds fluid, and that without leaves |
| `HeightSource.StopsMean` | src/world/heightmap.rs:288-301 | for each of the six kinds, priming stops at a cell if and only if it is not plain air and its flags say so |
| `HeightSource.SurfaceMeans` | src/world/heightmap.rs:288-301 | below an ocean floor something blocks motion and nothing above it does; below a motion surface something blocks motion or is fluid, and nothing above it; the floor is never above the surface |
| `Heightmap.PrimedSettles` | src/world/heightmap.rs:288-301 | priming leaves every column right above the highest block that stops it, or where it was |
| `Heightmap.PrimedFloorIsLower` | src/world/heightmap.rs:288-301 | primed from the bottom, the ocean floor lies nowhere above the motion surface |
| `HeightColumns.ColumnIsField` | src/world/heightmap.rs:277-282 | columns lie in their words from the low end, none across two words |
| `ViewGeometry.WithinMeans` | src/world/view.rs:140-160 | around an origin away from the edges the wrapping test is a circle widened by one chunk, or by two with neighbours |
| `View.EventsMean` | src/world/view.rs:326-343 | a new center is announced first and only if it changed, and then every chunk gained or lost exactly once |
| `Nbt.UnitBytesMean` | src/nbt/write.rs:92-112 | one, two or three bytes by size; NUL takes the two bytes C0 80, so that no byte is zero |
| `SnbtText.QuoteForMeans` | src/snbt/write.rs:105-110 | the first quote inside decides: the other kind is chosen, and the double quote if there is none |
| `SnbtText.EscapedMeans` | src/snbt/write.rs:112-131 | five control units are escaped by letter and the others by two hexadecimal digits; so are backslashes and the chosen quote, and nothing else |
| `SnbtText.BareMeans` | src/snbt/write.rs:136-160 | exactly which keys stand without quotes |
| `SnbtText.NumberTexts` | src/snbt/write.rs:166-178 | numbers carry the suffix of their type |
| `SnbtText.ArrayTexts` | src/snbt/write.rs:226-254 | number arrays name their type first; bytes and longs carry a suffix each |
| `SnbtText.TreeTexts` | src/snbt/write.rs:190-215 | elements and entries follow in order, with commas between and a colon after each key |
| `SnbtScan.WhiteMeans` | src/snbt/read.rs:1025-1027 | exactly which units are blanks |
| `SnbtScan.HexDigitMeans` | src/snbt/read.rs:1038-1045 | hexadecimal digits count from zero to fifteen in either case |
| `SnbtScan.LimitMeans` | src/snbt/read.rs:825-867 | the widest magnitude of a literal of each width, signed or not |
| `SnbtScan.TruncateMeans` | src/snbt/read.rs:825-867 | an unsigned literal is truncated to the value in range that differs by whole turns |
| `Nbt.LessMeans` | src/nbt/mod.rs:91-116 | names are ordered by their first difference, and a proper prefix comes first |
| `Nbt.LookupMeans` | src/nbt/mod.rs:91-116 | the last entry of a name decides, and a name without entries is not found |
| `Nbt.UnsignedMeans` | src/nbt/write.rs:114-140 | numbers are written in two's complement at every width |
| `NbtLaws.WritesExactly` | src/nbt/write.rs:114-198 | a payload is written if and only if no End hides inside a container, strings and arrays fit their length fields, the levels left suffice, wrappers included, and its bytes fit the output limit |
| `NbtLaws.NetworkExactly` | src/nbt/write.rs:5-18 | so for a network root, whose depth limit is at most 512 |
| `NbtLaws.NamedExactly` | src/nbt/write.rs:23-45 | so for a named root; End must have no name |
| `NbtLaws.MixedMeans` | src/nbt/write.rs:218-231 | a list travels as compounds exactly if it holds two types or a compound |
| `NbtLaws.NumbersMean` | src/nbt/write.rs:114-140 | numbers and floats byte for byte |
| `NbtLaws.ArraysMean` | src/nbt/write.rs:140-175 | four bytes of count before arrays, two before strings |
| `NbtLaws.ListsMean` | src/nbt/write.rs:177-198 | the bytes of an empty list, of a list of one type, and of a mixed list |
| `NbtLaws.ElementMeans` | src/nbt/write.rs:177-198 | in a list of compounds all but an ordinary compound travels as an entry without a name |
| `NbtLaws.RootMeans` | src/nbt/write.rs:23-45 | a named root of two entries: type and name before each payload, a zero byte after the last |
| `NbtLaws.IdsMean` | src/nbt/mod.rs:263-279 | the type bytes |
| `NbtLaws.NormMeans` | src/nbt/read.rs:161-202 | reading makes every NaN the one canonical NaN and negative zero positive, and changes nothing else |
| `BigEndian.PutMeans` | src/nbt/write.rs:114-140 | the most significant byte comes first |
| `Wire.VarintMeans` | src/wire/mod.rs:113-129 | seven bits a byte, least significant first, in as few bytes as hold the value, all but the last marked |
| `PackedWords.CellIsField` | src/world/section/packed.rs:51-54 | cells lie in their words from the low end, none across two words |
| `Palette.FirstUsesMean` | src/world/section.rs:599-615 | the palette lists the values at the places that hold one not met before |
| `Paletted.RegistryBitsMean` | src/world/section.rs:61-63 | registry IDs have as many bits as the greatest takes |
| `Paletted.NeededMeans` | src/world/section.rs:180-191 | key width is the least for the number of different values |
| `Paletted.CompactMeans` | src/world/section.rs:162-229 | what storage and width a container has, by its number of different values: four to eight bits for blocks, one to three for biomes |
| `Paletted.GrownBits` | src/world/section.rs:291-305 | a single value grows to the least palette, a palette by one bit, and past the widest one to registry IDs |
| `SectionCodec.HeaderMeans` | src/world/section.rs:618-651 | the first byte of a container, by its number of different values |
| `SectionCodec.UniformSection` | src/world/section.rs:542-564 | the bytes of a section of one block and one biome |
| `CpuPool.SettlingMeans` | src/runtime/mod.rs:517-563 | work that was not cancelled has its result or its failure, and cancellation hides both |
| `CpuPool.UncancelledYields` | src/runtime/mod.rs:424-434 | in every run, a result nobody cancelled stays until it is taken, and the client takes exactly it |

## Left out

Parts of the repository without a model here:

- Sockets, authentication, encryption, compression, file loading and the login and configuration drivers: foreign calls and I/O.
- Allocator failure and over-allocation: a requested capacity is the actual one, except for the group table of the delivery queue.
- The byte budgets of the tick owner's tables and queues, of NBT copying and of SNBT reading: not modelled. Those of sections, packed words, heightmaps, the CPU pool, the sender, the delivery queue and NBT reading, writing and comparing are.
- The lighting engine, NBT path execution and the disk chunk decoder: the model takes their results as given.
- Revision fences in world loading, player population and access control: the section cache proves the same idea in its harder form.
- Packet, login-key and lighting jobs of the pool: they pass through the same slot, queue and lease steps as the two job kinds modelled.
- Condition variables, panics and peak statistics: waiting is a step that is not enabled, a panic is a failed outcome, peaks are not kept.
- Sorted vectors of chunks and sections with binary search: maps, visited in address order where order matters.
- The order of ties inside the tick heaps, the ready heap and the scheduling index: any order the contracts allow, and `TickOutcome` shows what it cannot influence.
- `pack_chunk` of the tick owner and its sort scratch: an ordered copy of one queue.
- `Section::write_network`: two container writes after the counts; the direct encoder and the section reader are modelled.
- The wire form of 64-bit variable-length integers: the same shape as the 32-bit one.
- SNBT diagnostics, error cursors and allocation budgets, pretty printing, and parsing from UTF-8 text.
- Floating-point text in SNBT both ways, Unicode character names and the uuid operation: function parameters of the reader.
- Heightmap lookup in stored NBT: the arrays found and the required kinds are parameters.

Contracts stated weaker than they might be:

- TickOwner.ScheduledTickOwner: keeps its identities as a mathematical set; the table that implements it is proved separately in Identities.
- TickOwner.ScheduledTickOwner.New: the allocation-budget errors of the owner's tables are not modelled.
- TickOwner.ScheduledTickOwner.RegisterChunk: the allocation-budget error of a new chunk's queues is not modelled.
- TickOwner.ScheduledTickOwner.LoadPendingChunk: the allocation-budget errors that follow the type check are not modelled.
- TickOwner.ScheduledTickOwner.CopyArea: the allocation-budget errors of the snapshot and admission scratch are not modelled.
- TickSweep.RemoveInside: the heap is a sequence handed from call to call, so sharing of its buffer is not captured.
- Selection.Least.Finish: which of several equally distant positions are kept is not stated, only that none left out is nearer.
- SnbtWrite.Write: only for trees without floats, because their text comes from a conversion outside the model.
- SnbtRead.ParseUtf16: says nothing of printed floats; for other text that was not printed it says what kind of tree can come out, not which error.
- SnbtRead.ParsePrefix: as for ParseUtf16.
- SnbtScan.Scanner.Float: the normalized text it hands to the conversion is not specified, only that printed integers never get there.
- NbtRead.ReadNetwork: which error a malformed input gives is not stated; sums are unbounded, so the checked-overflow errors do not occur.
- NbtRead.ReadNamed: as for ReadNetwork.
- SectionCodec.ReadNetwork: which error a malformed container gives is not stated.
- SectionCodec.ReadSection: which error a malformed section gives is not stated.
- Preparation.SectionPreparationOwner.TakeFinished: a job is asked once, so its answer is a function of the job; when it would have answered later is the caller's choice of that function.
- Paletted.Set: containers are values, so an update in place is a returned container; failure returning the old one stands for leaving it unchanged.
- NbtTrees.CloneTag: work is charged exactly, stack and buffer allocations are not charged.
- NbtTrees.TooDeep: as for CloneTag; its work bound is an upper bound because it may stop early.
- NbtCompare.CompareBudget.Run: each budget error implies that its limit was below a stated bound on the whole comparison; the converse fails, because a comparison may stop early.
- CpuPool.DrainedExactlyOnce: that workers leave is shown as progress of every enabled step; fair scheduling of the threads is assumed.
- ViewGeometry.Next: the scan is a value handed from call to call.
