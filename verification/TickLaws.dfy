/** What the words used by the contracts of scheduled ticks mean, told by positions, times and places alone. */
module TickLaws {
  import opened World
  import opened Filters
  import opened TickTypes
  import opened TickHeap
  import opened TickState
  import opened TickQueues
  import opened TickCopy
  import opened TickOwner

  predicate InColumn(p: TickPosition, a: ChunkAddress) {
    16 * a.x <= p.x < 16 * a.x + 16 && 16 * a.z <= p.z < 16 * a.z + 16
  }

  predicate InBox(p: TickPosition, box: TickBounds) {
    && box.min.x <= p.x <= box.max.x
    && box.min.y <= p.y <= box.max.y
    && box.min.z <= p.z <= box.max.z
  }

  // ----- entries kept -----

  /** A load keeps exactly the entries of the chunk's own column, in saved order. */
  lemma {:induction false} HereKeeps(saved: seq<SavedTick>, a: ChunkAddress)
    ensures Keeps(saved, Here(saved, a), (s: SavedTick) => InColumn(s.position, a))
  {
    hide InColumn, TickPosition.Chunk;
    var keep := (s: SavedTick) => InColumn(s.position, a);
    if saved == [] {
      KeepsNone(keep);
    } else {
      var n := |saved| - 1;
      HereKeeps(saved[..n], a);
      OwnColumn(saved[n].position, a);
      KeepsNext(saved[..n], Here(saved[..n], a), keep, saved[n]);
      assert saved[..n] + [saved[n]] == saved;
    }
  }

  /** Clearing keeps exactly the selected ticks outside the box, in order. */
  lemma {:induction false} OutsideKeeps(ticks: seq<ScheduledTick>, box: TickBounds)
    ensures Keeps(ticks, Outside(ticks, box), (t: ScheduledTick) => !InBox(t.position, box))
  {
    var keep := (t: ScheduledTick) => !InBox(t.position, box);
    if ticks == [] {
      KeepsNone(keep);
    } else {
      var n := |ticks| - 1;
      OutsideKeeps(ticks[..n], box);
      KeepsNext(ticks[..n], Outside(ticks[..n], box), keep, ticks[n]);
      assert ticks[..n] + [ticks[n]] == ticks;
    }
  }

  /** A snapshot takes exactly the ticks inside the box, in order. */
  lemma {:induction false} InsideKeeps(ticks: seq<ScheduledTick>, box: TickBounds)
    ensures Keeps(ticks, Inside(ticks, box), (t: ScheduledTick) => InBox(t.position, box))
  {
    var keep := (t: ScheduledTick) => InBox(t.position, box);
    if ticks == [] {
      KeepsNone(keep);
    } else {
      var n := |ticks| - 1;
      InsideKeeps(ticks[..n], box);
      KeepsNext(ticks[..n], Inside(ticks[..n], box), keep, ticks[n]);
      assert ticks[..n] + [ticks[n]] == ticks;
    }
  }

  /** A chunk's part of a selection or a batch is exactly its own column's ticks, in order. */
  lemma {:induction false} FromChunkKeeps(ticks: seq<ScheduledTick>, a: ChunkAddress)
    ensures Keeps(ticks, FromChunk(ticks, a), (t: ScheduledTick) => InColumn(t.position, a))
  {
    hide InColumn, TickPosition.Chunk;
    var keep := (t: ScheduledTick) => InColumn(t.position, a);
    if ticks == [] {
      KeepsNone(keep);
    } else {
      var n := |ticks| - 1;
      FromChunkKeeps(ticks[..n], a);
      OwnColumn(ticks[n].position, a);
      KeepsNext(ticks[..n], FromChunk(ticks[..n], a), keep, ticks[n]);
      assert ticks[..n] + [ticks[n]] == ticks;
    }
  }

  // ----- unpacking -----

  /** An unpacked entry keeps place, type and priority, is due after its delay, and comes before all created ticks. */
  lemma UnpackedMeans(saved: seq<SavedTick>, time: i64, i: nat, j: nat)
    requires i < j < |saved| < 0x8000_0000
    ensures var t := AllUnpacked(saved, time)[i];
      && t.position == saved[i].position && t.typeId == saved[i].typeId && t.priority == saved[i].priority
      && (-TWO_63 <= time + saved[i].delay < TWO_63 ==> t.triggerTick - time == saved[i].delay)
      && t.subTickOrder < AllUnpacked(saved, time)[j].subTickOrder < 0
      && AllUnpacked(saved, time)[|saved| - 1].subTickOrder == -1
  {
  }

  // ----- copying -----

  /** A copy is the same tick moved by the offset; only its place and its order inside the tick change. */
  lemma ShiftedMeans(t: ScheduledTick, offset: TickPosition, min: i64, max: i64)
    ensures var c := Shifted(t, offset, min, max);
      && c.typeId == t.typeId && c.priority == t.priority && c.triggerTick == t.triggerTick
      && (-TWO_31 <= t.position.x + offset.x < TWO_31 ==> c.position.x - t.position.x == offset.x)
      && (-TWO_31 <= t.position.y + offset.y < TWO_31 ==> c.position.y - t.position.y == offset.y)
      && (-TWO_31 <= t.position.z + offset.z < TWO_31 ==> c.position.z - t.position.z == offset.z)
      && (min <= t.subTickOrder <= max && max - min + max + 1 < TWO_63 ==> c.subTickOrder - (max + 1) == t.subTickOrder - min)
  {
    if min <= t.subTickOrder <= max {
      ShiftedOrderValue(t.subTickOrder, min, max);
    }
  }

  /** Addresses ascend by x, and for one x by z. */
  lemma AscendingMeans(order: seq<ChunkAddress>, i: nat, j: nat)
    requires Ascending(order) && i < j < |order|
    ensures order[i].x < order[j].x || (order[i].x == order[j].x && order[i].z < order[j].z)
  {
    assert AddressBefore(order[i], order[j]);
  }

  /** The gathered ticks of one chunk are those of its queue inside the box, in heap order. */
  lemma {:induction false} GatheredOfChunk(chunks: Chunks, d: TickDomain, box: TickBounds, order: seq<ChunkAddress>, a: ChunkAddress, limit: nat)
    requires ChunksOk(chunks, limit) && Ascending(order) && forall b :: b in order ==> b in chunks
    ensures FromChunk(Gathered(chunks, d, box, order), a) ==
            if a in order && chunks[a].registered then Inside(chunks[a].Queue(d).heap, box) else []
  {
    hide QueueOk, FromChunk, Inside, AddressBefore, ChunksOk;
    FromNothing(a);
    if order != [] {
      var n := |order| - 1;
      var b, rest := order[n], Gathered(chunks, d, box, order[..n]);
      GatheredOfChunk(chunks, d, box, order[..n], a, limit);
      assert order == order[..n] + [b];
      LastIsNew(order);
      var found := Inside(chunks[b].Queue(d).heap, box);
      TicksAreHere(chunks, d, b, limit);
      InsideColumn(chunks[b].Queue(d).heap, box, b, a);
      FromChunkConcat(rest, found, a);
    }
  }

  lemma LastIsNew(order: seq<ChunkAddress>)
    requires Ascending(order) && order != []
    ensures Ascending(order[..|order| - 1]) && order[|order| - 1] !in order[..|order| - 1]
  {
    var n := |order| - 1;
    assert forall k :: 0 <= k < n ==> AddressBefore(order[k], order[n]);
  }

  lemma TicksAreHere(chunks: Chunks, d: TickDomain, a: ChunkAddress, limit: nat)
    requires ChunksOk(chunks, limit) && a in chunks
    ensures forall t :: t in chunks[a].Queue(d).heap ==> t.position.Chunk() == a
  {
    assert QueueOk(a, chunks[a].Queue(d), limit);
  }

  lemma {:induction false} InsideColumn(ticks: seq<ScheduledTick>, box: TickBounds, b: ChunkAddress, a: ChunkAddress)
    requires forall t :: t in ticks ==> t.position.Chunk() == b
    ensures FromChunk(Inside(ticks, box), a) == if a == b then Inside(ticks, box) else []
  {
    if ticks != [] {
      var n := |ticks| - 1;
      InsideColumn(ticks[..n], box, b, a);
      assert ticks[n] in ticks;
      FromChunkNext(Inside(ticks[..n], box), ticks[n], a);
    }
  }

  lemma FromNothing(a: ChunkAddress)
    ensures FromChunk([], a) == []
  {
  }

  lemma FromChunkNext(ticks: seq<ScheduledTick>, t: ScheduledTick, a: ChunkAddress)
    ensures FromChunk(ticks + [t], a) == FromChunk(ticks, a) + if t.position.Chunk() == a then [t] else []
  {
    assert (ticks + [t])[..|ticks|] == ticks;
  }

  lemma {:induction false} FromChunkConcat(x: seq<ScheduledTick>, y: seq<ScheduledTick>, a: ChunkAddress)
    ensures FromChunk(x + y, a) == FromChunk(x, a) + FromChunk(y, a)
  {
    hide FromChunk;
    FromNothing(a);
    if y == [] {
      assert x + y == x;
    } else {
      var n := |y| - 1;
      FromChunkConcat(x, y[..n], a);
      FromChunkNext(x + y[..n], y[n], a);
      FromChunkNext(y[..n], y[n], a);
      assert x + y == (x + y[..n]) + [y[n]] && y == y[..n] + [y[n]];
    }
  }

  /** Chunks come one after another, in ascending order of their addresses. */
  lemma {:induction false} GatheredAscends(chunks: Chunks, d: TickDomain, box: TickBounds, order: seq<ChunkAddress>, limit: nat, i: nat, j: nat)
    requires ChunksOk(chunks, limit) && Ascending(order) && forall b :: b in order ==> b in chunks
    requires i < j < |Gathered(chunks, d, box, order)|
    ensures var p, q := Gathered(chunks, d, box, order)[i].position.Chunk(), Gathered(chunks, d, box, order)[j].position.Chunk();
            p == q || p.x < q.x || (p.x == q.x && p.z < q.z)
  {
    hide QueueOk, ChunksOk, Inside, TickPosition.Chunk;
    var n := |order| - 1;
    var b, rest := order[n], Gathered(chunks, d, box, order[..n]);
    assert order == order[..n] + [b];
    if j < |rest| {
      GatheredAscends(chunks, d, box, order[..n], limit, i, j);
    } else {
      var all, found := Gathered(chunks, d, box, order), Inside(chunks[b].Queue(d).heap, box);
      TicksAreHere(chunks, d, b, limit);
      InsideMember(chunks[b].Queue(d).heap, box, found[j - |rest|]);
      assert all[j].position.Chunk() == b;
      if i < |rest| {
        GatheredMember(chunks, d, box, order[..n], limit, i);
        var k :| 0 <= k < n && order[..n][k] == rest[i].position.Chunk();
        assert AddressBefore(order[k], b);
      } else {
        InsideMember(chunks[b].Queue(d).heap, box, found[i - |rest|]);
      }
    }
  }

  lemma {:induction false} InsideMember(ticks: seq<ScheduledTick>, box: TickBounds, t: ScheduledTick)
    requires t in Inside(ticks, box)
    ensures t in ticks
  {
    var n := |ticks| - 1;
    if t in Inside(ticks[..n], box) {
      InsideMember(ticks[..n], box, t);
    }
  }

  lemma {:induction false} GatheredMember(chunks: Chunks, d: TickDomain, box: TickBounds, order: seq<ChunkAddress>, limit: nat, i: nat)
    requires ChunksOk(chunks, limit) && forall b :: b in order ==> b in chunks
    requires i < |Gathered(chunks, d, box, order)|
    ensures Gathered(chunks, d, box, order)[i].position.Chunk() in order
  {
    var n := |order| - 1;
    var b, rest := order[n], Gathered(chunks, d, box, order[..n]);
    if i < |rest| {
      GatheredMember(chunks, d, box, order[..n], limit, i);
    } else {
      var found := Inside(chunks[b].Queue(d).heap, box);
      assert QueueOk(b, chunks[b].Queue(d), limit);
      InsideMember(chunks[b].Queue(d).heap, box, found[i - |rest|]);
    }
  }

  /** The places of the ticks a batch takes: the first of its identity to reach a registered chunk that lacks it. */
  ghost predicate FirstOfItsKind(chunks: Chunks, d: TickDomain, ticks: seq<ScheduledTick>, k: nat)
    requires k < |ticks|
  {
    var p := ticks[k].position;
    var a := ChunkAddress(p.x / 16, p.z / 16);
    && a in chunks && chunks[a].registered
    && Identity(p, ticks[k].typeId) !in (match d case Block => chunks[a].blocks.identities case Fluid => chunks[a].fluids.identities)
    && forall j :: 0 <= j < k ==> ticks[j].position != p || ticks[j].typeId != ticks[k].typeId
  }

  lemma {:induction false} AcceptedMeans(chunks: Chunks, d: TickDomain, ticks: seq<ScheduledTick>) returns (at: seq<nat>)
    ensures |at| == |Accepted(chunks, d, ticks)| && Climbs(at)
    ensures forall i :: 0 <= i < |at| ==> at[i] < |ticks| && Accepted(chunks, d, ticks)[i] == ticks[at[i]]
    ensures forall k :: 0 <= k < |ticks| ==> (k in at <==> FirstOfItsKind(chunks, d, ticks, k))
  {
    at := [];
    if ticks != [] {
      var n := |ticks| - 1;
      at := AcceptedMeans(chunks, d, ticks[..n]);
      forall k | 0 <= k < n ensures FirstOfItsKind(chunks, d, ticks[..n], k) == FirstOfItsKind(chunks, d, ticks, k) {
        assert forall j :: 0 <= j <= k ==> ticks[..n][j] == ticks[j];
      }
      assert Fresh(chunks, d, ticks, n) == FirstOfItsKind(chunks, d, ticks, n);
      if Fresh(chunks, d, ticks, n) {
        at := at + [n];
      }
    }
  }

  /** The missing ones are those whose column is not a registered chunk. */
  lemma {:induction false} MissingMeans(chunks: Chunks, ticks: seq<ScheduledTick>) returns (at: seq<nat>)
    ensures |at| == Missing(chunks, ticks) && Climbs(at) && (forall k :: k in at ==> k < |ticks|)
    ensures forall k :: 0 <= k < |ticks| ==>
      (k in at <==> forall a :: a in chunks && chunks[a].registered ==> !InColumn(ticks[k].position, a))
  {
    hide InColumn, TickPosition.Chunk;
    at := [];
    if ticks != [] {
      var n := |ticks| - 1;
      at := MissingMeans(chunks, ticks[..n]);
      assert forall k :: 0 <= k < n ==> ticks[..n][k] == ticks[k];
      forall a ensures InColumn(ticks[n].position, a) <==> a == ticks[n].position.Chunk() {
        OwnColumn(ticks[n].position, a);
      }
      assert forall i :: 0 <= i < |at| ==> at[i] in at;
      if !Registered(chunks, ticks[n].position.Chunk()) {
        at := at + [n];
      }
    }
  }

  lemma OwnColumn(p: TickPosition, a: ChunkAddress)
    ensures InColumn(p, a) <==> a == p.Chunk()
  {
  }
}
