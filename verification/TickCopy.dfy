/** Copying an area: gather a fixed snapshot, decide admission for the whole batch, then schedule it. */
module TickCopy {
  import opened World
  import opened TickTypes
  import opened TickState
  import opened TickPhase
  import opened TickQueues

  // ----- the snapshot -----

  function Inside(ticks: seq<ScheduledTick>, bounds: TickBounds): seq<ScheduledTick> {
    if ticks == [] then []
    else
      var rest := Inside(ticks[..|ticks| - 1], bounds);
      var last := ticks[|ticks| - 1];
      if bounds.Contains(last.position) then rest + [last] else rest
  }

  /** Chunks are kept in x-then-z order. */
  predicate AddressBefore(a: ChunkAddress, b: ChunkAddress) {
    a.x < b.x || (a.x == b.x && a.z < b.z)
  }

  predicate Ascending(order: seq<ChunkAddress>) {
    forall i, j :: 0 <= i < j < |order| ==> AddressBefore(order[i], order[j])
  }

  ghost function Gathered(chunks: Chunks, d: TickDomain, bounds: TickBounds, order: seq<ChunkAddress>): seq<ScheduledTick>
    requires forall a :: a in order ==> a in chunks
  {
    if order == [] then []
    else
      var n := |order| - 1;
      var rest := Gathered(chunks, d, bounds, order[..n]);
      if chunks[order[n]].registered then rest + Inside(chunks[order[n]].Queue(d).heap, bounds) else rest
  }

  predicate IsLeastAddress(s: set<ChunkAddress>, a: ChunkAddress) {
    a in s && forall b :: b in s && b != a ==> AddressBefore(a, b)
  }

  lemma {:induction false} LeastAddressExists(s: set<ChunkAddress>)
    requires s != {}
    ensures exists a :: IsLeastAddress(s, a)
  {
    var x :| x in s;
    var rest := s - {x};
    assert forall b :: b in s && b != x ==> b in rest;
    if rest == {} {
      assert IsLeastAddress(s, x);
    } else {
      LeastAddressExists(rest);
      var y :| IsLeastAddress(rest, y);
      if AddressBefore(x, y) {
        assert IsLeastAddress(s, x);
      } else {
        assert AddressBefore(y, x) && IsLeastAddress(s, y);
      }
    }
  }

  method LeastAddress(s: set<ChunkAddress>) returns (a: ChunkAddress)
    requires s != {}
    ensures a in s && IsLeastAddress(s, a)
  {
    LeastAddressExists(s);
    a :| a in s && IsLeastAddress(s, a);
  }

  /** The chunks visited so far precede all others. */
  ghost predicate Visiting(order: seq<ChunkAddress>, unvisited: set<ChunkAddress>, keys: set<ChunkAddress>) {
    && Ascending(order) && unvisited <= keys
    && (forall a :: a in keys <==> a in unvisited || a in order)
    && (forall a, b :: a in order && b in unvisited ==> AddressBefore(a, b))
  }

  lemma VisitStep(order: seq<ChunkAddress>, unvisited: set<ChunkAddress>, keys: set<ChunkAddress>, a: ChunkAddress)
    requires Visiting(order, unvisited, keys) && IsLeastAddress(unvisited, a)
    ensures Visiting(order + [a], unvisited - {a}, keys)
  {
  }

  lemma VisitStart(keys: set<ChunkAddress>)
    ensures Visiting([], keys, keys)
  {
  }

  lemma VisitEnd(order: seq<ChunkAddress>, keys: set<ChunkAddress>)
    requires Visiting(order, {}, keys)
    ensures Ascending(order) && forall a :: a in order <==> a in keys
  {
  }

  lemma {:induction false} NoneInside(ticks: seq<ScheduledTick>, bounds: TickBounds)
    requires forall t :: t in ticks ==> !bounds.Contains(t.position)
    ensures Inside(ticks, bounds) == []
  {
    if ticks != [] {
      NoneInside(ticks[..|ticks| - 1], bounds);
    }
  }

  method GatherQueue(ticks: seq<ScheduledTick>, bounds: TickBounds) returns (found: seq<ScheduledTick>)
    ensures found == Inside(ticks, bounds)
  {
    found := [];
    for i := 0 to |ticks|
      invariant found == Inside(ticks[..i], bounds)
    {
      assert ticks[..i + 1][..i] == ticks[..i];
      if bounds.Contains(ticks[i].position) {
        found := found + [ticks[i]];
      }
    }
    assert ticks[..|ticks|] == ticks;
  }

  /** One chunk's contribution; chunks whose column misses the area contribute nothing. */
  method GatherChunk(chunks: Chunks, d: TickDomain, bounds: TickBounds, a: ChunkAddress, ghost limit: nat)
      returns (found: seq<ScheduledTick>)
    requires ChunksOk(chunks, limit) && a in chunks
    ensures found == if chunks[a].registered then Inside(chunks[a].Queue(d).heap, bounds) else []
  {
    var q := chunks[a].Queue(d);
    found := [];
    if chunks[a].registered {
      if bounds.ContainsChunk(a) {
        found := GatherQueue(q.heap, bounds);
      } else {
        assert QueueOk(a, q, limit);
        forall t | t in q.heap ensures !bounds.Contains(t.position) {
          if bounds.Contains(t.position) {
            ContainedTickInContainedChunk(bounds, t.position);
          }
        }
        NoneInside(q.heap, bounds);
      }
    }
  }

  /** The selected ticks of the area in order, then every registered queue's in address order. */
  method GatherSnapshot(chunks: Chunks, selected: seq<ScheduledTick>, d: TickDomain, bounds: TickBounds, ghost limit: nat)
      returns (snapshot: seq<ScheduledTick>, ghost order: seq<ChunkAddress>)
    requires ChunksOk(chunks, limit)
    ensures Ascending(order) && (forall a :: a in order <==> a in chunks)
    ensures snapshot == Inside(selected, bounds) + Gathered(chunks, d, bounds, order)
  {
    snapshot := GatherQueue(selected, bounds);
    order := [];
    var unvisited := chunks.Keys;
    hide ChunksOk, Inside, IsLeastAddress, Visiting;
    VisitStart(chunks.Keys);
    while unvisited != {}
      invariant Visiting(order, unvisited, chunks.Keys) && unvisited <= chunks.Keys && forall a :: a in order ==> a in chunks
      invariant snapshot == Inside(selected, bounds) + Gathered(chunks, d, bounds, order)
      decreases unvisited
    {
      var a := LeastAddress(unvisited);
      var found := GatherChunk(chunks, d, bounds, a, limit);
      VisitStep(order, unvisited, chunks.Keys, a);
      assert (order + [a])[..|order|] == order;
      order, unvisited, snapshot := order + [a], unvisited - {a}, snapshot + found;
    }
    VisitEnd(order, chunks.Keys);
  }

  // ----- moving ticks -----

  /** Copies keep their relative order and are numbered after the largest copied sub-order. */
  function ShiftedOrder(sub: i64, min: i64, max: i64): i64 {
    WrapI64(WrapI64(WrapI64(sub - min) + max) + 1)
  }

  function Shifted(tick: ScheduledTick, offset: TickPosition, min: i64, max: i64): ScheduledTick {
    var p := tick.position;
    tick.(position := TickPosition(WrapI32(p.x + offset.x), WrapI32(p.y + offset.y), WrapI32(p.z + offset.z)),
          subTickOrder := ShiftedOrder(tick.subTickOrder, min, max))
  }

  function AllShifted(ticks: seq<ScheduledTick>, offset: TickPosition, min: i64, max: i64): seq<ScheduledTick> {
    seq(|ticks|, i requires 0 <= i < |ticks| => Shifted(ticks[i], offset, min, max))
  }

  lemma WrapAgain(x: int, y: int)
    ensures WrapI64(WrapI64(x) + y) == WrapI64(x + y)
  {
    WrapPeriod(x);
    var k := (x - WrapI64(x)) / TWO_64;
    assert WrapI64(x) + y == x + y - k * TWO_64;
    WrapShift(x + y, -k);
  }

  lemma WrapPeriod(x: int)
    ensures (x - WrapI64(x)) % TWO_64 == 0
  {
  }

  lemma WrapShift(x: int, k: int)
    ensures WrapI64(x + k * TWO_64) == WrapI64(x)
  {
  }

  lemma WrapOnce(v: int)
    requires -TWO_63 <= v < TWO_63 + TWO_64
    ensures WrapI64(v) == if v < TWO_63 then v else v - TWO_64
  {
  }

  /** The shift is exact, or off by one whole wrap, according to whether it overflows. */
  lemma ShiftedOrderValue(sub: i64, min: i64, max: i64)
    requires min <= sub <= max
    ensures ShiftedOrder(sub, min, max) ==
            if sub - min + max + 1 < TWO_63 then sub - min + max + 1 else sub - min + max + 1 - TWO_64
  {
    hide WrapI64;
    WrapAgain(sub - min, max);
    WrapAgain(sub - min + max, 1);
    WrapOnce(sub - min + max + 1);
  }

  /** A copy comes after every original exactly when its shifted order does not overflow. */
  lemma CopyFollowsOriginals(sub: i64, min: i64, max: i64)
    requires min <= sub <= max
    ensures ShiftedOrder(sub, min, max) > max <==> sub - min + max + 1 < TWO_63
  {
    ShiftedOrderValue(sub, min, max);
  }

  /** Without overflow the originals and their copies span twice the originals' order range. */
  lemma CopyDoublesRange(sub: i64, min: i64, max: i64)
    requires min <= sub <= max && 2 * max - min + 1 < TWO_63
    ensures max < ShiftedOrder(sub, min, max) <= min + 2 * (max - min) + 1 == ShiftedOrder(max, min, max)
  {
    ShiftedOrderValue(sub, min, max);
    ShiftedOrderValue(max, min, max);
  }

  /**
   Repeating a copy doubles the copied order range, so an area copied onto itself often enough
   reaches such a range: here the copy of the last of two ticks comes before both originals,
   and before the copy of the first.
   */
  lemma CopyBeforeOriginals()
    ensures var min, max := 0, TWO_63 / 2;
            && ShiftedOrder(max, min, max) < min
            && ShiftedOrder(max, min, max) < ShiftedOrder(min, min, max)
  {
    var min, max := 0, TWO_63 / 2;
    ShiftedOrderValue(max, min, max);
    ShiftedOrderValue(min, min, max);
  }

  /** Two copies keep the order of their originals exactly when overflow does not separate them. */
  lemma CopiesKeepOrder(first: i64, second: i64, min: i64, max: i64)
    requires min <= first < second <= max
    ensures ShiftedOrder(first, min, max) < ShiftedOrder(second, min, max) <==>
            !(first - min + max + 1 < TWO_63 <= second - min + max + 1)
  {
    ShiftedOrderValue(first, min, max);
    ShiftedOrderValue(second, min, max);
  }

  method OrderRange(ticks: seq<ScheduledTick>) returns (min: i64, max: i64)
    requires ticks != []
    ensures forall t :: t in ticks ==> min <= t.subTickOrder <= max
    ensures (exists t :: t in ticks && t.subTickOrder == min) && (exists t :: t in ticks && t.subTickOrder == max)
  {
    min, max := ticks[0].subTickOrder, ticks[0].subTickOrder;
    for i := 1 to |ticks|
      invariant forall t :: t in ticks[..i] ==> min <= t.subTickOrder <= max
      invariant exists t :: t in ticks && t.subTickOrder == min
      invariant exists t :: t in ticks && t.subTickOrder == max
    {
      assert ticks[..i + 1] == ticks[..i] + [ticks[i]];
      assert ticks[i] in ticks;
      if ticks[i].subTickOrder < min {
        min := ticks[i].subTickOrder;
      }
      if ticks[i].subTickOrder > max {
        max := ticks[i].subTickOrder;
      }
    }
    assert ticks[..|ticks|] == ticks;
  }

  // ----- admission of the batch -----

  /** The k-th tick is the first of its identity to reach a registered chunk that lacks it. */
  ghost predicate Fresh(chunks: Chunks, d: TickDomain, ticks: seq<ScheduledTick>, k: nat)
    requires k < |ticks|
  {
    var a := ticks[k].position.Chunk();
    && Registered(chunks, a)
    && ticks[k].Id() !in chunks[a].Queue(d).identities
    && (forall j :: 0 <= j < k ==> ticks[j].Id() != ticks[k].Id())
  }

  /** The batch a copy should schedule: the fresh ticks, in order. */
  ghost function Accepted(chunks: Chunks, d: TickDomain, ticks: seq<ScheduledTick>): seq<ScheduledTick> {
    if ticks == [] then []
    else
      var n := |ticks| - 1;
      var rest := Accepted(chunks, d, ticks[..n]);
      if Fresh(chunks, d, ticks, n) then rest + [ticks[n]] else rest
  }

  ghost predicate TypesKnown(chunks: Chunks, types: u32, ticks: seq<ScheduledTick>) {
    forall t :: t in ticks && Registered(chunks, t.position.Chunk()) ==> t.typeId < types
  }

  ghost predicate Fits(chunks: Chunks, d: TickDomain, limit: nat, batch: seq<ScheduledTick>) {
    forall a :: Registered(chunks, a) ==> chunks[a].Queue(d).Count() + |FromChunk(batch, a)| <= limit
  }

  lemma {:induction false} AcceptedMember(chunks: Chunks, d: TickDomain, ticks: seq<ScheduledTick>, t: ScheduledTick)
    requires t in Accepted(chunks, d, ticks)
    ensures t in ticks && Registered(chunks, t.position.Chunk())
    ensures t.Id() !in chunks[t.position.Chunk()].Queue(d).identities
  {
    var n := |ticks| - 1;
    assert ticks == ticks[..n] + [ticks[n]];
    if t in Accepted(chunks, d, ticks[..n]) {
      AcceptedMember(chunks, d, ticks[..n], t);
    }
  }

  /** Every earlier registered tick is either accepted, or its identity was already taken. */
  lemma {:induction false} AcceptedCovers(chunks: Chunks, d: TickDomain, ticks: seq<ScheduledTick>, k: nat)
    requires k < |ticks| && Registered(chunks, ticks[k].position.Chunk())
    requires ticks[k].Id() !in chunks[ticks[k].position.Chunk()].Queue(d).identities
    ensures ticks[k].Id() in Ids(Accepted(chunks, d, ticks))
    decreases |ticks|
  {
    var n := |ticks| - 1;
    var rest := Accepted(chunks, d, ticks[..n]);
    if k < n {
      assert ticks[..n][k] == ticks[k];
      AcceptedCovers(chunks, d, ticks[..n], k);
      IdsAppend(rest, ticks[n]);
    } else if Fresh(chunks, d, ticks, n) {
      IdsAppend(rest, ticks[n]);
      var ids := Ids(rest + [ticks[n]]);
      assert ids[|ids| - 1] == ticks[n].Id();
    } else {
      var j :| 0 <= j < n && ticks[j].Id() == ticks[n].Id();
      assert ticks[..n][j] == ticks[j] && ticks[j].position == ticks[n].position;
      AcceptedCovers(chunks, d, ticks[..n], j);
    }
  }

  /** Freshness, read off the identities accepted so far. */
  lemma FreshByIds(chunks: Chunks, d: TickDomain, ticks: seq<ScheduledTick>, k: nat)
    requires k < |ticks| && Registered(chunks, ticks[k].position.Chunk())
    ensures Fresh(chunks, d, ticks, k) <==>
            ticks[k].Id() !in chunks[ticks[k].position.Chunk()].Queue(d).identities
            && ticks[k].Id() !in Ids(Accepted(chunks, d, ticks[..k]))
  {
    var id := ticks[k].Id();
    var before := Accepted(chunks, d, ticks[..k]);
    if id !in chunks[ticks[k].position.Chunk()].Queue(d).identities {
      if id in Ids(before) {
        var i :| 0 <= i < |Ids(before)| && Ids(before)[i] == id;
        AcceptedMember(chunks, d, ticks[..k], before[i]);
        var j :| 0 <= j < k && ticks[..k][j] == before[i];
        assert ticks[j].Id() == id;
      } else {
        forall j | 0 <= j < k ensures ticks[j].Id() != id {
          if ticks[j].Id() == id {
            assert ticks[..k][j] == ticks[j] && ticks[j].position == ticks[k].position;
            AcceptedCovers(chunks, d, ticks[..k], j);
          }
        }
      }
    }
  }

  lemma {:induction false} FromChunkGrows(batch: seq<ScheduledTick>, n: nat, a: ChunkAddress)
    requires n <= |batch|
    ensures FromChunk(batch[..n], a) <= FromChunk(batch, a)
    decreases |batch|
  {
    if n == |batch| {
      assert batch[..n] == batch;
    } else {
      var m := |batch| - 1;
      FromChunkGrows(batch[..m], n, a);
      assert batch[..m][..n] == batch[..n];
    }
  }

  lemma {:induction false} AcceptedGrows(chunks: Chunks, d: TickDomain, ticks: seq<ScheduledTick>, n: nat)
    requires n <= |ticks|
    ensures Accepted(chunks, d, ticks[..n]) <= Accepted(chunks, d, ticks)
    decreases |ticks|
  {
    if n == |ticks| {
      assert ticks[..n] == ticks;
    } else {
      var m := |ticks| - 1;
      AcceptedGrows(chunks, d, ticks[..m], n);
      assert ticks[..m][..n] == ticks[..n];
    }
  }

  /** A chunk that overflows part way overflows at the end. */
  lemma OverflowStays(chunks: Chunks, d: TickDomain, ticks: seq<ScheduledTick>, n: nat, limit: nat, a: ChunkAddress)
    requires n <= |ticks| && Registered(chunks, a)
    requires chunks[a].Queue(d).Count() + |FromChunk(Accepted(chunks, d, ticks[..n]), a)| > limit
    ensures !Fits(chunks, d, limit, Accepted(chunks, d, ticks))
  {
    AcceptedGrows(chunks, d, ticks, n);
    var all := Accepted(chunks, d, ticks);
    var part := Accepted(chunks, d, ticks[..n]);
    assert all[..|part|] == part;
    FromChunkGrows(all, |part|, a);
  }

  datatype CopyOutcome = CopyOutcome(added: nat, duplicates: nat, missing: nat)

  /** What has been decided after `k` ticks: the batch, its identities, its size per chunk, and the tallies. */
  datatype Admission = Admission(batch: seq<ScheduledTick>, ids: set<Identity>, counts: map<ChunkAddress, nat>, outcome: CopyOutcome) {
    ghost predicate After(chunks: Chunks, d: TickDomain, ticks: seq<ScheduledTick>, k: nat)
      requires k <= |ticks|
    {
      && batch == Accepted(chunks, d, ticks[..k])
      && (forall id :: id in ids <==> id in Ids(batch))
      && counts.Keys == chunks.Keys && (forall a :: a in counts ==> counts[a] == |FromChunk(batch, a)|)
      && outcome.added == |batch| && outcome.added + outcome.duplicates + outcome.missing == k
      && outcome.missing == Missing(chunks, ticks[..k])
    }
  }

  ghost function Missing(chunks: Chunks, ticks: seq<ScheduledTick>): nat {
    if ticks == [] then 0
    else Missing(chunks, ticks[..|ticks| - 1]) + if Registered(chunks, ticks[|ticks| - 1].position.Chunk()) then 0 else 1
  }

  lemma SkipStep(chunks: Chunks, d: TickDomain, ticks: seq<ScheduledTick>, k: nat, s: Admission, next: CopyOutcome)
    requires k < |ticks| && s.After(chunks, d, ticks, k)
    requires Registered(chunks, ticks[k].position.Chunk()) ==> !Fresh(chunks, d, ticks, k)
    requires next == if Registered(chunks, ticks[k].position.Chunk()) then s.outcome.(duplicates := s.outcome.duplicates + 1)
                     else s.outcome.(missing := s.outcome.missing + 1)
    ensures s.(outcome := next).After(chunks, d, ticks, k + 1)
  {
    FreshPrefix(chunks, d, ticks, k);
  }

  lemma FreshPrefix(chunks: Chunks, d: TickDomain, ticks: seq<ScheduledTick>, k: nat)
    requires k < |ticks|
    ensures ticks[..k + 1][..k] == ticks[..k]
    ensures Fresh(chunks, d, ticks[..k + 1], k) == Fresh(chunks, d, ticks, k)
  {
    assert forall j :: 0 <= j < k ==> ticks[..k + 1][j] == ticks[j];
  }

  lemma AdmitStep(chunks: Chunks, d: TickDomain, ticks: seq<ScheduledTick>, k: nat, s: Admission)
    requires k < |ticks| && s.After(chunks, d, ticks, k) && Fresh(chunks, d, ticks, k)
    ensures var tick := ticks[k]; var a := tick.position.Chunk();
            Admission(s.batch + [tick], s.ids + {tick.Id()}, s.counts[a := s.counts[a] + 1],
                      s.outcome.(added := s.outcome.added + 1)).After(chunks, d, ticks, k + 1)
  {
    var tick := ticks[k];
    var batch := s.batch + [tick];
    FreshPrefix(chunks, d, ticks, k);
    IdsAppend(s.batch, tick);
    forall id ensures id in Ids(batch) <==> id in s.ids || id == tick.Id() {
      assert id in Ids(s.batch) + [tick.Id()] <==> id in Ids(s.batch) || id == tick.Id();
    }
    assert batch[..|s.batch|] == s.batch;
  }

  /** Decides the whole batch before anything changes; it succeeds exactly when every type is known and every chunk has room. */
  method Decide(chunks: Chunks, d: TickDomain, types: u32, limit: nat, ticks: seq<ScheduledTick>)
      returns (r: Result<Admission, TickError>)
    requires ChunksOk(chunks, limit)
    ensures r.Ok? <==> TypesKnown(chunks, types, ticks) && Fits(chunks, d, limit, Accepted(chunks, d, ticks))
    ensures r.Ok? ==> r.value.After(chunks, d, ticks, |ticks|)
    ensures r == Err(InvalidType) ==> !TypesKnown(chunks, types, ticks)
    ensures r.Err? && r != Err(InvalidType) ==> r == Err(QueueFull) && !Fits(chunks, d, limit, Accepted(chunks, d, ticks))
  {
    hide ChunksOk, Fresh, Accepted, Fits, FromChunk;
    FitsNothing(chunks, d, limit);
    var s := Admission([], {}, map a | a in chunks :: 0, CopyOutcome(0, 0, 0));
    NothingDecided(chunks, d, ticks, s);
    for k := 0 to |ticks|
      invariant s.After(chunks, d, ticks, k)
      invariant TypesKnown(chunks, types, ticks[..k]) && Fits(chunks, d, limit, s.batch)
    {
      var tick := ticks[k];
      var a := tick.position.Chunk();
      assert ticks[..k + 1] == ticks[..k] + [tick];
      if a !in chunks || !chunks[a].registered {
        var next := s.outcome.(missing := s.outcome.missing + 1);
        SkipStep(chunks, d, ticks, k, s, next);
        s := s.(outcome := next);
        continue;
      }
      if tick.typeId >= types {
        assert tick in ticks;
        return Err(InvalidType);
      }
      FreshByIds(chunks, d, ticks, k);
      if tick.Id() in chunks[a].Queue(d).identities || tick.Id() in s.ids {
        var next := s.outcome.(duplicates := s.outcome.duplicates + 1);
        SkipStep(chunks, d, ticks, k, s, next);
        s := s.(outcome := next);
        continue;
      }
      AdmitStep(chunks, d, ticks, k, s);
      if chunks[a].Queue(d).Count() + s.counts[a] >= limit {
        OverflowStays(chunks, d, ticks, k + 1, limit, a);
        return Err(QueueFull);
      }
      var before := s.batch;
      s := Admission(s.batch + [tick], s.ids + {tick.Id()}, s.counts[a := s.counts[a] + 1], s.outcome.(added := s.outcome.added + 1));
      FitsStep(chunks, d, limit, before, tick);
    }
    assert ticks[..|ticks|] == ticks;
    r := Ok(s);
  }

  lemma NothingDecided(chunks: Chunks, d: TickDomain, ticks: seq<ScheduledTick>, s: Admission)
    requires s == Admission([], {}, map a | a in chunks :: 0, CopyOutcome(0, 0, 0))
    ensures s.After(chunks, d, ticks, 0)
  {
  }

  lemma FitsStep(chunks: Chunks, d: TickDomain, limit: nat, batch: seq<ScheduledTick>, tick: ScheduledTick)
    requires Fits(chunks, d, limit, batch)
    requires var a := tick.position.Chunk();
             Registered(chunks, a) && chunks[a].Queue(d).Count() + |FromChunk(batch, a)| < limit
    ensures Fits(chunks, d, limit, batch + [tick])
  {
    assert (batch + [tick])[..|batch|] == batch;
  }

  // ----- scheduling the batch -----

  /** Every chunk gained exactly its part of the batch; nothing else changed. */
  ghost predicate BatchScheduled(before: Chunks, after: Chunks, d: TickDomain, batch: seq<ScheduledTick>) {
    && before.Keys == after.Keys
    && (forall a :: a in before ==> after[a] == before[a].With(d, after[a].Queue(d)))
    && (forall a :: a in before ==> Gains(before[a].Queue(d), after[a].Queue(d), FromChunk(batch, a)))
  }

  ghost predicate Admissible(chunks: Chunks, d: TickDomain, limit: nat, batch: seq<ScheduledTick>) {
    && Fits(chunks, d, limit, batch)
    && (forall i :: 0 <= i < |batch| ==> Registered(chunks, batch[i].position.Chunk())
                                         && batch[i].Id() !in chunks[batch[i].position.Chunk()].Queue(d).identities)
    && DistinctIds(batch)
  }

  ghost predicate DistinctIds(batch: seq<ScheduledTick>) {
    forall i, j :: 0 <= i < j < |batch| ==> batch[i].Id() != batch[j].Id()
  }

  lemma {:induction false} AcceptedIsAdmissible(chunks: Chunks, d: TickDomain, limit: nat, ticks: seq<ScheduledTick>)
    requires Fits(chunks, d, limit, Accepted(chunks, d, ticks))
    ensures Admissible(chunks, d, limit, Accepted(chunks, d, ticks))
  {
    var batch := Accepted(chunks, d, ticks);
    forall i | 0 <= i < |batch|
      ensures Registered(chunks, batch[i].position.Chunk())
              && batch[i].Id() !in chunks[batch[i].position.Chunk()].Queue(d).identities
    {
      AcceptedMember(chunks, d, ticks, batch[i]);
    }
    AcceptedDistinct(chunks, d, ticks);
  }

  lemma {:induction false} AcceptedDistinct(chunks: Chunks, d: TickDomain, ticks: seq<ScheduledTick>)
    ensures DistinctIds(Accepted(chunks, d, ticks))
  {
    if ticks != [] {
      var n := |ticks| - 1;
      var rest, batch := Accepted(chunks, d, ticks[..n]), Accepted(chunks, d, ticks);
      AcceptedDistinct(chunks, d, ticks[..n]);
      forall i, j | 0 <= i < j < |batch| ensures batch[i].Id() != batch[j].Id() {
        if j < |rest| {
          assert batch[i] == rest[i] && batch[j] == rest[j];
        } else {
          assert batch[j] == ticks[n] && batch[i] == rest[i];
          AcceptedMember(chunks, d, ticks[..n], rest[i]);
          var m :| 0 <= m < n && ticks[..n][m] == rest[i];
          assert ticks[m] == rest[i];
        }
      }
    }
  }

  /** The next tick of an admissible batch is neither a duplicate nor over capacity. */
  lemma NextIsAdmitted(before: Chunks, after: Chunks, d: TickDomain, limit: nat, batch: seq<ScheduledTick>, k: nat)
    requires Admissible(before, d, limit, batch) && k < |batch| && BatchScheduled(before, after, d, batch[..k])
    ensures var tick := batch[k]; var a := tick.position.Chunk();
            && Registered(after, a) && tick.Id() !in after[a].Queue(d).identities
            && after[a].Queue(d).Count() < limit
  {
    hide Fits, FromChunk, Gains, ChunkQueue.Count;
    var a := batch[k].position.Chunk();
    assert Registered(before, a);
    assert Gains(before[a].Queue(d), after[a].Queue(d), FromChunk(batch[..k], a));
    NextIsNew(before[a].Queue(d), after[a].Queue(d), batch, k);
    NextHasRoom(before, after[a].Queue(d), d, limit, batch, k);
  }

  lemma NextIsNew(q: ChunkQueue, r: ChunkQueue, batch: seq<ScheduledTick>, k: nat)
    requires k < |batch| && DistinctIds(batch) && batch[k].Id() !in q.identities
    requires Gains(q, r, FromChunk(batch[..k], batch[k].position.Chunk()))
    ensures batch[k].Id() !in r.identities
  {
    hide FromChunk;
    var a := batch[k].position.Chunk();
    var part := FromChunk(batch[..k], a);
    forall t | t in part ensures t.Id() != batch[k].Id() {
      FromChunkMember(batch[..k], a, t);
      var j :| 0 <= j < k && batch[..k][j] == t;
      assert batch[j] == t;
    }
  }

  lemma NextHasRoom(before: Chunks, r: ChunkQueue, d: TickDomain, limit: nat, batch: seq<ScheduledTick>, k: nat)
    requires k < |batch| && Fits(before, d, limit, batch) && Registered(before, batch[k].position.Chunk())
    requires Gains(before[batch[k].position.Chunk()].Queue(d), r, FromChunk(batch[..k], batch[k].position.Chunk()))
    ensures r.Count() < limit
  {
    var a := batch[k].position.Chunk();
    var q, part := before[a].Queue(d), FromChunk(batch[..k], a);
    assert |multiset(r.heap)| == |multiset(q.heap)| + |multiset(part)|;
    assert batch[..k + 1][..k] == batch[..k];
    FromChunkGrows(batch, k + 1, a);
    assert FromChunk(batch[..k + 1], a) == part + [batch[k]];
  }

  lemma {:induction false} FromChunkMember(ticks: seq<ScheduledTick>, a: ChunkAddress, t: ScheduledTick)
    requires t in FromChunk(ticks, a)
    ensures t in ticks && t.position.Chunk() == a
  {
    var n := |ticks| - 1;
    if t in FromChunk(ticks[..n], a) {
      FromChunkMember(ticks[..n], a, t);
    }
  }

  lemma BatchStep(before: Chunks, middle: Chunks, after: Chunks, d: TickDomain, batch: seq<ScheduledTick>, k: nat)
    requires k < |batch| && BatchScheduled(before, middle, d, batch[..k])
    requires var a := batch[k].position.Chunk();
             && a in middle && a in after && after == middle[a := middle[a].With(d, after[a].Queue(d))]
             && Gains(middle[a].Queue(d), after[a].Queue(d), [batch[k]])
    ensures BatchScheduled(before, after, d, batch[..k + 1])
  {
    hide Gains;
    assert batch[..k + 1][..k] == batch[..k];
    var tick := batch[k];
    var a := tick.position.Chunk();
    forall b | b in before ensures after[b] == before[b].With(d, after[b].Queue(d))
                                   && Gains(before[b].Queue(d), after[b].Queue(d), FromChunk(batch[..k + 1], b))
    {
      assert Gains(before[b].Queue(d), middle[b].Queue(d), FromChunk(batch[..k], b));
      if b == a {
        GainsAppend(before[a].Queue(d), middle[a].Queue(d), after[a].Queue(d), FromChunk(batch[..k], a), tick);
      } else {
        UpdateIsLocal(middle, d, a, after[a].Queue(d), b, d);
      }
    }
  }

  lemma GainsAppend(q: ChunkQueue, m: ChunkQueue, r: ChunkQueue, ticks: seq<ScheduledTick>, tick: ScheduledTick)
    requires Gains(q, m, ticks) && Gains(m, r, [tick])
    ensures Gains(q, r, ticks + [tick])
  {
    assert (set t | t in ticks + [tick] :: t.Id()) == (set t | t in ticks :: t.Id()) + {tick.Id()};
    assert (set t | t in [tick] :: t.Id()) == {tick.Id()};
  }

  /** Schedules an admissible batch; no step can fail. */
  method ScheduleAll(chunks: Chunks, d: TickDomain, index: Timeline, limit: nat, batch: seq<ScheduledTick>)
      returns (after: Chunks, timeline: Timeline)
    requires ChunksOk(chunks, limit) && Indexed(chunks, d, index) && Admissible(chunks, d, limit, batch)
    ensures ChunksOk(after, limit) && Indexed(after, d, timeline)
    ensures BatchScheduled(chunks, after, d, batch)
  {
    after, timeline := chunks, index;
    hide ChunksOk, Indexed, Admissible;
    for k := 0 to |batch|
      invariant ChunksOk(after, limit) && Indexed(after, d, timeline)
      invariant BatchScheduled(chunks, after, d, batch[..k])
    {
      var tick := batch[k];
      NextIsAdmitted(chunks, after, d, limit, batch, k);
      ghost var middle := after;
      var outcome;
      outcome, after, timeline := ScheduleCreated(after, d, timeline, limit, tick.position.Chunk(), tick);
      assert outcome == Ok(Added);
      BatchStep(chunks, middle, after, d, batch, k);
    }
    assert batch[..|batch|] == batch;
  }

  /**
   The outcome of copying a snapshot: all of it is renumbered above its greatest sub-order and
   moved; the accepted part is scheduled if every type is known and every chunk has room for
   it, and otherwise nothing changes.
   */
  ghost predicate Copies(before: Chunks, after: Chunks, d: TickDomain, types: u32, limit: nat, snapshot: seq<ScheduledTick>,
                         offset: TickPosition, min: i64, max: i64, r: Result<CopyOutcome, TickError>)
  {
    var copies := AllShifted(snapshot, offset, min, max);
    var batch := Accepted(before, d, copies);
    && (forall t :: t in snapshot ==> min <= t.subTickOrder <= max)
    && (snapshot != [] ==> (exists t :: t in snapshot && t.subTickOrder == min) && (exists t :: t in snapshot && t.subTickOrder == max))
    && (r.Ok? <==> TypesKnown(before, types, copies) && Fits(before, d, limit, batch))
    && (r.Err? ==> after == before)
    && (r.Ok? ==>
          && BatchScheduled(before, after, d, batch)
          && r.value.added == |batch| && r.value.missing == Missing(before, copies)
          && r.value.added + r.value.duplicates + r.value.missing == |snapshot|)
  }

  /** Copying decides first and mutates only after every decision succeeded. */
  method CommitCopy(chunks: Chunks, d: TickDomain, index: Timeline, types: u32, limit: nat,
                    snapshot: seq<ScheduledTick>, offset: TickPosition)
      returns (r: Result<CopyOutcome, TickError>, after: Chunks, timeline: Timeline,
               ghost min: i64, ghost max: i64)
    requires ChunksOk(chunks, limit) && Indexed(chunks, d, index)
    ensures ReplacesOnly(chunks, after, d, limit, timeline) && (r.Err? ==> timeline == index)
    ensures Copies(chunks, after, d, types, limit, snapshot, offset, min, max, r)
  {
    after, timeline := chunks, index;
    if snapshot == [] {
      min, max := 0, 0;
      NothingScheduled(chunks, d);
      FitsNothing(chunks, d, limit);
      return Ok(CopyOutcome(0, 0, 0)), after, timeline, min, max;
    }
    var least, greatest := OrderRange(snapshot);
    min, max := least, greatest;
    var copies := AllShifted(snapshot, offset, least, greatest);
    var decided := Decide(chunks, d, types, limit, copies);
    assert copies[..|copies|] == copies;
    if decided.Err? {
      return Err(decided.error), after, timeline, min, max;
    }
    AcceptedIsAdmissible(chunks, d, limit, copies);
    after, timeline := ScheduleAll(chunks, d, index, limit, decided.value.batch);
    r := Ok(decided.value.outcome);
  }

  lemma NothingScheduled(chunks: Chunks, d: TickDomain)
    ensures BatchScheduled(chunks, chunks, d, [])
  {
  }

  lemma FitsNothing(chunks: Chunks, d: TickDomain, limit: nat)
    requires ChunksOk(chunks, limit)
    ensures Fits(chunks, d, limit, [])
  {
    forall a | Registered(chunks, a) ensures chunks[a].Queue(d).Count() + |FromChunk([], a)| <= limit {
      assert QueueOk(a, chunks[a].Queue(d), limit);
    }
  }
}
