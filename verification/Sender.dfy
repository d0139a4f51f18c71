/**
 Per-player chunk sending: pending positions, the quota and acknowledgement window, candidate
 selection once per tick, and all-or-nothing admission of a batch to the delivery queue.
 */
module Sender {
  import opened World
  import opened Filters
  import opened Nearest
  import opened Selection
  import opened Delivery
  import PendingPositions

  const MIN_CHUNKS_PER_TICK: real := 0.01
  const MAX_CHUNKS_PER_TICK: real := 64.0
  const MAX_WINDOW: nat := 10

  const MAX_PENDING: nat := 3 * 0x1000_0000

  /** Positions a plan may have to hold; a memory connection sends everything at once. */
  function SelectionRoom(memory: bool, limit: nat): nat {
    if memory then limit else if limit < 64 then limit else 64
  }

  /** What is left of the control bytes after a buffer of eight-byte entries. */
  function Reserve(count: nat, remaining: nat): Result<nat, SendError> {
    if 8 * count > remaining then Err(ControlBudget) else Ok(remaining - 8 * count)
  }

  /** A chunks-per-tick request as a client may send it. */
  datatype Request = NotANumber | NegativeInfinity | PositiveInfinity | Finite(value: real)

  function Clamped(request: Request): (r: real)
    ensures MIN_CHUNKS_PER_TICK <= r <= MAX_CHUNKS_PER_TICK
  {
    match request
    case NotANumber => MIN_CHUNKS_PER_TICK
    case NegativeInfinity => MIN_CHUNKS_PER_TICK
    case PositiveInfinity => MAX_CHUNKS_PER_TICK
    case Finite(v) =>
      if v < MIN_CHUNKS_PER_TICK then MIN_CHUNKS_PER_TICK else if v > MAX_CHUNKS_PER_TICK then MAX_CHUNKS_PER_TICK else v
  }

  /** A request inside the range is kept, one outside goes to the nearer end, and none that is not a number counts. */
  lemma ClampedMeans(request: Request)
    ensures request.Finite? && 0.01 <= request.value <= 64.0 ==> Clamped(request) == request.value
    ensures request.PositiveInfinity? || (request.Finite? && request.value >= 64.0) ==> Clamped(request) == 64.0
    ensures request.NegativeInfinity? || request.NotANumber? || (request.Finite? && request.value <= 0.01) ==> Clamped(request) == 0.01
  {
  }

  datatype SendReady = SendReady(position: ChunkAddress, bytes: Bytes)

  datatype AdmissionOutcome = NoReadyChunks | Admitted(chunks: nat, packetBytes: nat)

  datatype DropOutcome = RemovedPending | NoForget | ForgetQueued

  // ----- readiness answers -----

  predicate Matches(candidates: seq<ChunkAddress>, ready: seq<Option<SendReady>>) {
    |ready| == |candidates| && forall i :: 0 <= i < |ready| && ready[i].Some? ==>
      ready[i].value.position == candidates[i] && ready[i].value.bytes != []
  }

  /** The ready chunks, in candidate order. */
  function Present(ready: seq<Option<SendReady>>): seq<SendReady> {
    if ready == [] then []
    else
      var rest := Present(ready[..|ready| - 1]);
      if ready[|ready| - 1].Some? then rest + [ready[|ready| - 1].value] else rest
  }

  function TotalBytes(chunks: seq<SendReady>): nat {
    if chunks == [] then 0 else TotalBytes(chunks[..|chunks| - 1]) + |chunks[|chunks| - 1].bytes|
  }

  function Positions(chunks: seq<SendReady>): seq<ChunkAddress> {
    seq(|chunks|, i requires 0 <= i < |chunks| => chunks[i].position)
  }

  ghost function DataPackets(chunks: seq<SendReady>): seq<Packet> {
    seq(|chunks|, i requires 0 <= i < |chunks| => Data(chunks[i].position, chunks[i].bytes))
  }

  /** The batch holds every ready answer and no other, each once, in the order of the candidates. */
  lemma {:induction false} PresentMeans(ready: seq<Option<SendReady>>) returns (at: seq<nat>)
    ensures |at| == |Present(ready)| && Climbs(at)
    ensures forall i :: 0 <= i < |at| ==> at[i] < |ready| && ready[at[i]] == Some(Present(ready)[i])
    ensures forall k :: 0 <= k < |ready| ==> (k in at <==> ready[k].Some?)
  {
    at := [];
    if ready != [] {
      var n := |ready| - 1;
      at := PresentMeans(ready[..n]);
      PresentNext(ready, at);
      if ready[n].Some? {
        at := at + [n];
      }
    }
  }

  lemma PresentNext(ready: seq<Option<SendReady>>, at: seq<nat>)
    requires ready != [] && |at| == |Present(ready[..|ready| - 1])| && Climbs(at)
    requires forall i :: 0 <= i < |at| ==> at[i] < |ready| - 1 && ready[at[i]] == Some(Present(ready[..|ready| - 1])[i])
    requires forall k :: 0 <= k < |ready| - 1 ==> (k in at <==> ready[k].Some?)
    ensures var next := if ready[|ready| - 1].Some? then at + [|ready| - 1] else at;
      && |next| == |Present(ready)| && Climbs(next)
      && (forall i :: 0 <= i < |next| ==> next[i] < |ready| && ready[next[i]] == Some(Present(ready)[i]))
      && (forall k :: 0 <= k < |ready| ==> (k in next <==> ready[k].Some?))
  {
    var n := |ready| - 1;
    var rest, all := Present(ready[..n]), Present(ready);
    assert all == if ready[n].Some? then rest + [ready[n].value] else rest;
    hide Present;
    assert n !in at;
  }

  /** Every byte of every chunk is counted once. */
  lemma {:induction false} TotalBytesMeans(a: seq<SendReady>, b: seq<SendReady>)
    ensures TotalBytes(a + b) == TotalBytes(a) + TotalBytes(b)
    ensures forall c: SendReady :: TotalBytes([c]) == |c.bytes|
  {
    if b == [] {
      assert a + b == a;
    } else {
      var n := |b| - 1;
      TotalBytesMeans(a, b[..n]);
      assert (a + b)[..|a + b| - 1] == a + b[..n];
    }
  }

  lemma {:induction false} PresentFromCandidates(candidates: seq<ChunkAddress>, ready: seq<Option<SendReady>>)
    requires Matches(candidates, ready)
    ensures |Present(ready)| <= |candidates|
    ensures multiset(Positions(Present(ready))) <= multiset(candidates)
    ensures forall c :: c in Present(ready) ==> c.bytes != []
  {
    if ready == [] {
      assert candidates == [];
    } else {
      var n := |ready| - 1;
      PresentFromCandidates(candidates[..n], ready[..n]);
      assert candidates == candidates[..n] + [candidates[n]];
      if ready[n].Some? {
        assert Positions(Present(ready)) == Positions(Present(ready[..n])) + [candidates[n]];
      }
    }
  }

  /** A batch under construction carries exactly the bytes of the chunks packed so far. */
  ghost predicate Packs(spans: seq<Span>, data: Bytes, chunks: seq<SendReady>) {
    && |spans| == |chunks|
    && (forall i :: 0 <= i < |spans| ==> spans[i].position == chunks[i].position && spans[i].start + spans[i].len <= |data|
                                         && data[spans[i].start..spans[i].start + spans[i].len] == chunks[i].bytes)
  }

  lemma PackStep(spans: seq<Span>, data: Bytes, chunks: seq<SendReady>, chunk: SendReady)
    requires Packs(spans, data, chunks)
    ensures Packs(spans + [Span(chunk.position, |data|, |chunk.bytes|)], data + chunk.bytes, chunks + [chunk])
  {
    var d := data + chunk.bytes;
    forall i | 0 <= i < |spans| ensures d[spans[i].start..spans[i].start + spans[i].len] == chunks[i].bytes {
      assert d[spans[i].start..spans[i].start + spans[i].len] == data[spans[i].start..spans[i].start + spans[i].len];
    }
    assert d[|data|..|data| + |chunk.bytes|] == chunk.bytes;
  }

  /** A packed batch is written as Start, the chunks' own bytes in order, Finish. */
  lemma PackedPackets(spans: seq<Span>, data: Bytes, chunks: seq<SendReady>)
    requires Packs(spans, data, chunks) && chunks != []
    ensures Batch(spans, data, 0).Valid()
    ensures Batch(spans, data, 0).Packets() == [Start] + DataPackets(chunks) + [Finish(|chunks|)]
  {
    var g := Batch(spans, data, 0);
    assert forall i :: 0 <= i < |spans| ==> g.Piece(i) == DataPackets(chunks)[i];
  }

  lemma PackNothing()
    ensures Packs([], [], [])
  {
  }

  method PackBatch(chunks: seq<SendReady>) returns (g: Group)
    requires chunks != []
    ensures g.Batch? && g.Valid() && g.cursor == 0 && |g.spans| == |chunks| && |g.data| == TotalBytes(chunks)
    ensures g.Packets() == [Start] + DataPackets(chunks) + [Finish(|chunks|)]
  {
    hide Packs;
    var spans: seq<Span>, data: Bytes := [], [];
    PackNothing();
    for i := 0 to |chunks|
      invariant Packs(spans, data, chunks[..i]) && |data| == TotalBytes(chunks[..i])
    {
      PackStep(spans, data, chunks[..i], chunks[i]);
      assert chunks[..i + 1] == chunks[..i] + [chunks[i]] && chunks[..i + 1][..i] == chunks[..i];
      spans := spans + [Span(chunks[i].position, |data|, |chunks[i].bytes|)];
      data := data + chunks[i].bytes;
    }
    assert chunks[..|chunks|] == chunks;
    PackedPackets(spans, data, chunks);
    g := Batch(spans, data, 0);
  }

  /** Checks every answer and counts the ready chunks and their bytes. */
  method Measure(candidates: seq<ChunkAddress>, ready: seq<Option<SendReady>>) returns (r: Result<seq<SendReady>, SendError>)
    ensures r == if Matches(candidates, ready) then Ok(Present(ready)) else Err(InvalidReadiness)
  {
    if |ready| != |candidates| {
      return Err(InvalidReadiness);
    }
    var chunks := [];
    for i := 0 to |ready|
      invariant chunks == Present(ready[..i])
      invariant forall k :: 0 <= k < i && ready[k].Some? ==> ready[k].value.position == candidates[k] && ready[k].value.bytes != []
    {
      assert ready[..i + 1][..i] == ready[..i];
      if ready[i].Some? {
        if ready[i].value.position != candidates[i] || ready[i].value.bytes == [] {
          return Err(InvalidReadiness);
        }
        chunks := chunks + [ready[i].value];
      }
    }
    assert ready[..|ready|] == ready;
    r := Ok(chunks);
  }

  // ----- positions as keys -----

  function Unpacked(keys: seq<u64>): seq<ChunkAddress> {
    seq(|keys|, i requires 0 <= i < |keys| => Unpack(keys[i]))
  }

  ghost function Waiting(members: set<u64>): set<ChunkAddress> {
    set k | k in members :: Unpack(k)
  }

  lemma WaitingIff(members: set<u64>, p: ChunkAddress)
    ensures p in Waiting(members) <==> Pack(p) in members
  {
    PackRoundTrips(p);
    if p in Waiting(members) {
      var k :| k in members && Unpack(k) == p;
      UnpackRoundTrips(k);
    }
  }

  lemma {:induction false} UnpackedCounts(keys: seq<u64>, p: ChunkAddress)
    ensures multiset(Unpacked(keys))[p] == multiset(keys)[Pack(p)]
  {
    if keys != [] {
      var n := |keys| - 1;
      UnpackedCounts(keys[..n], p);
      assert keys == keys[..n] + [keys[n]];
      assert Unpacked(keys) == Unpacked(keys[..n]) + [Unpack(keys[n])];
      PackRoundTrips(p);
      UnpackRoundTrips(keys[n]);
    }
  }

  /** The streamed positions are the waiting set, each once. */
  lemma StreamIsWaiting(keys: seq<u64>, members: set<u64>)
    requires multiset(keys) == multiset(members)
    ensures multiset(Unpacked(keys)) == multiset(Waiting(members))
    ensures |keys| == |members|
  {
    assert |multiset(keys)| == |multiset(members)|;
    forall p ensures multiset(Unpacked(keys))[p] == multiset(Waiting(members))[p] {
      UnpackedCounts(keys, p);
      WaitingIff(members, p);
    }
  }

  // ----- choosing candidates -----

  /**
   What one tick may offer: the nearest few for a remote client; otherwise the streamed keys
   sorted by distance, those equally distant in the order of the stream.
   */
  /** A plan names waiting positions, each once and nearest first, and leaves none out that is nearer than one it names. */
  ghost predicate Nearby(candidates: seq<ChunkAddress>, waiting: set<ChunkAddress>, center: ChunkAddress) {
    && (forall p :: p in candidates ==> p in waiting)
    && (forall i, j :: 0 <= i < j < |candidates| ==> candidates[i] != candidates[j] && Distance(candidates[i], center) <= Distance(candidates[j], center))
    && forall p, q :: p in candidates && q in waiting && q !in candidates ==> Distance(p, center) <= Distance(q, center)
  }

  /** Below one chunk of quota there is no plan; otherwise a memory connection plans for all that waits, any other for as many as its quota. */
  lemma ChosenMeans(candidates: seq<ChunkAddress>, keys: seq<u64>, members: set<u64>, memory: bool, quota: real, center: ChunkAddress)
    requires Chosen(candidates, keys, members, memory, quota, center)
    ensures quota < 1.0 ==> candidates == []
    ensures quota >= 1.0 ==>
      && Nearby(candidates, Waiting(members), center)
      && |candidates| == (if memory || |Waiting(members)| <= quota.Floor then |Waiting(members)| else quota.Floor)
  {
    hide Waiting, SameOrder;
    WaitingSize(members);
    var waiting := Waiting(members);
    if quota >= 1.0 {
      if memory || |members| <= quota.Floor {
        SameOrderIsPermutation(Unpacked(keys), candidates, center);
      }
      NamesOnce(candidates, waiting, center);
    }
  }

  lemma WaitingSize(members: set<u64>)
    ensures |Waiting(members)| == |members|
  {
    if members == {} {
      assert Waiting(members) == {};
    } else {
      var k :| k in members;
      WaitingSize(members - {k});
      WaitingIff(members - {k}, Unpack(k));
      forall p ensures p in Waiting(members) <==> p in Waiting(members - {k}) + {Unpack(k)} {
        WaitingIff(members, p);
        WaitingIff(members - {k}, p);
        UnpackRoundTrips(k);
        PackRoundTrips(p);
      }
      UnpackRoundTrips(k);
      assert Waiting(members) == Waiting(members - {k}) + {Unpack(k)};
    }
  }

  lemma NamedTwice(s: seq<ChunkAddress>, i: nat, j: nat)
    requires i < j < |s| && s[i] == s[j]
    ensures multiset(s)[s[i]] >= 2
  {
    assert s == s[..j] + s[j..];
    assert s[..j][i] == s[i] && s[j..][0] == s[i];
  }

  /** A sorted part of a set's members names each at most once. */
  lemma NamesOnce(candidates: seq<ChunkAddress>, waiting: set<ChunkAddress>, center: ChunkAddress)
    requires multiset(candidates) <= multiset(waiting) && Sorted(candidates, center)
    requires forall p, q :: p in candidates && q in multiset(waiting) - multiset(candidates) ==> Distance(p, center) <= Distance(q, center)
    ensures Nearby(candidates, waiting, center)
    ensures multiset(candidates) == multiset(waiting) ==> |candidates| == |waiting|
  {
    hide Distance;
    if multiset(candidates) == multiset(waiting) {
      assert |multiset(candidates)| == |candidates| && |multiset(waiting)| == |waiting|;
    }
    forall p | p in candidates ensures p in waiting {
      assert multiset(candidates)[p] > 0;
    }
    forall i, j | 0 <= i < j < |candidates| ensures candidates[i] != candidates[j] {
      if candidates[i] == candidates[j] {
        NamedTwice(candidates, i, j);
      }
    }
    forall p, q | p in candidates && q in waiting && q !in candidates ensures q in multiset(waiting) - multiset(candidates) {
      assert multiset(candidates)[q] == 0;
    }
  }

  ghost predicate Chosen(candidates: seq<ChunkAddress>, keys: seq<u64>, members: set<u64>, memory: bool, quota: real, center: ChunkAddress) {
    if quota < 1.0 then candidates == []
    else if memory || |members| <= quota.Floor then
      multiset(Unpacked(keys)) == multiset(Waiting(members)) && StablySorts(Unpacked(keys), candidates, center)
    else IsNearest(multiset(Waiting(members)), quota.Floor, candidates, center)
  }

  lemma NearestWithin(members: set<u64>, count: nat, candidates: seq<ChunkAddress>, center: ChunkAddress)
    requires IsNearest(multiset(Waiting(members)), count, candidates, center) && |members| >= count
    ensures |candidates| <= count && multiset(candidates) <= multiset(Waiting(members))
  {
  }

  /** Offers every streamed position to a fresh collector. */
  method ChooseNearest(keys: seq<u64>, ghost members: set<u64>, count: nat, center: ChunkAddress) returns (candidates: seq<ChunkAddress>)
    requires multiset(keys) == multiset(members) && 1 <= count <= 64
    ensures IsNearest(multiset(Waiting(members)), count, candidates, center)
  {
    hide IsNearest, Holding;
    var least := new Least(count, center);
    ghost var all := Unpacked(keys);
    for i := 0 to |keys|
      invariant least.Valid() && fresh(least) && fresh(least.values) && least.count == count && least.center == center
      invariant least.offered == multiset(all[..i])
    {
      assert all[..i + 1] == all[..i] + [Unpack(keys[i])];
      least.Offer(Unpack(keys[i]));
    }
    assert all[..|keys|] == all;
    StreamIsWaiting(keys, members);
    candidates := least.Finish();
  }

  /** Stably sorts the whole stream by distance. */
  method SortAll(keys: seq<u64>, ghost members: set<u64>, center: ChunkAddress) returns (candidates: seq<ChunkAddress>)
    requires multiset(keys) == multiset(members)
    ensures StablySorts(Unpacked(keys), candidates, center)
    ensures multiset(Unpacked(keys)) == multiset(Waiting(members))
    ensures |candidates| == |members| && multiset(candidates) == multiset(Waiting(members))
  {
    hide StablySorts, SameOrder, Sorted, Pack, Unpack;
    var values := new ChunkAddress[|keys|](i requires 0 <= i < |keys| => Unpack(keys[i]));
    var scratch := new ChunkAddress[|keys|](_ => ZERO_ADDRESS);
    assert values[0..|keys|] == Unpacked(keys);
    StableSort(values, scratch, 0, values.Length, center);
    candidates := values[0..values.Length];
    StreamIsWaiting(keys, members);
    SortedIsPermutation(Unpacked(keys), candidates, center);
    assert |multiset(candidates)| == |multiset(Unpacked(keys))|;
  }

  lemma SortedIsPermutation(a: seq<ChunkAddress>, b: seq<ChunkAddress>, center: ChunkAddress)
    requires StablySorts(a, b, center)
    ensures multiset(a) == multiset(b)
  {
    SameOrderIsPermutation(a, b, center);
  }

  method Choose(keys: seq<u64>, ghost members: set<u64>, len: nat, memory: bool, quota: real, center: ChunkAddress)
      returns (candidates: seq<ChunkAddress>)
    requires multiset(keys) == multiset(members) && len == |members| && 1.0 <= quota <= 64.0
    ensures Chosen(candidates, keys, members, memory, quota, center)
    ensures multiset(candidates) <= multiset(Waiting(members))
    ensures !memory ==> |candidates| as real <= quota
  {
    hide IsNearest, StablySorts, Waiting;
    var count := quota.Floor;
    if !memory && len > count {
      candidates := ChooseNearest(keys, members, count, center);
      NearestWithin(members, count, candidates, center);
    } else {
      candidates := SortAll(keys, members, center);
    }
  }

  /** The last group writes Start, then the ready answers of their own candidates in order, then Finish with their number. */
  ghost predicate Delivered(candidates: seq<ChunkAddress>, ready: seq<Option<SendReady>>, at: seq<nat>, count: nat, groups: seq<Group>) {
    && groups != [] && groups[|groups| - 1].Valid() && count == |at| && |ready| == |candidates|
    && var packets := groups[|groups| - 1].Packets();
       && |packets| == count + 2 && packets[0] == Start && packets[count + 1] == Finish(count)
       && forall i :: 0 <= i < count ==>
            at[i] < |ready| && ready[at[i]].Some? && packets[i + 1] == Data(candidates[at[i]], ready[at[i]].value.bytes)
  }

  lemma DeliveredMeans(candidates: seq<ChunkAddress>, ready: seq<Option<SendReady>>, at: seq<nat>, groups: seq<Group>)
    requires Matches(candidates, ready) && |at| == |Present(ready)|
    requires forall i :: 0 <= i < |at| ==> at[i] < |ready| && ready[at[i]] == Some(Present(ready)[i])
    requires forall k :: 0 <= k < |ready| ==> (k in at <==> ready[k].Some?)
    requires groups != [] && groups[|groups| - 1].Valid()
    requires groups[|groups| - 1].Packets() == [Start] + DataPackets(Present(ready)) + [Finish(|Present(ready)|)]
    ensures Delivered(candidates, ready, at, |Present(ready)|, groups)
    ensures forall p :: p in Positions(Present(ready)) <==> exists i :: 0 <= i < |ready| && ready[i].Some? && candidates[i] == p
  {
    hide Present, Group.Packets, Group.Valid;
    var chunks := Present(ready);
    forall p | p in Positions(chunks) ensures exists i :: 0 <= i < |ready| && ready[i].Some? && candidates[i] == p {
      var i :| 0 <= i < |chunks| && Positions(chunks)[i] == p;
      assert ready[at[i]].Some? && candidates[at[i]] == p;
    }
    forall k | 0 <= k < |ready| && ready[k].Some? ensures candidates[k] in Positions(chunks) {
      var i :| 0 <= i < |at| && at[i] == k;
      assert Positions(chunks)[i] == candidates[k];
    }
  }

  lemma MatchesMeans(candidates: seq<ChunkAddress>, ready: seq<Option<SendReady>>)
    ensures !Matches(candidates, ready) <==>
      || |ready| != |candidates|
      || (exists i :: 0 <= i < |ready| && ready[i].Some? && (ready[i].value.position != candidates[i] || ready[i].value.bytes == []))
  {
  }

  class ChunkSender {
    const pending: PendingPositions.PendingSet
    const memory: bool
    var candidates: seq<ChunkAddress>
    var desired: real
    var quota: real
    var unacknowledged: nat
    var maxUnacknowledged: nat
    var lastTick: Option<u64>
    /** Whether the plan of the last tick was already admitted. */
    var admitted: bool
    /** The plan borrows the sender: it is gone as soon as anything else touches the sender. */
    ghost var planOpen: bool

    ghost predicate Valid() reads this, pending, pending.slots, pending.spare {
      pending.Valid() && Flow() && Plan()
    }

    /** The flow-control invariant; only a memory connection may overdraw its quota. */
    ghost predicate Flow() reads this {
      && MIN_CHUNKS_PER_TICK <= desired <= MAX_CHUNKS_PER_TICK
      && quota <= MAX_CHUNKS_PER_TICK && (!memory ==> 0.0 <= quota)
      && unacknowledged <= maxUnacknowledged && 1 <= maxUnacknowledged <= MAX_WINDOW
    }

    /** An open, unadmitted plan offers distinct waiting positions, within quota and window. */
    ghost predicate Plan() reads this, pending {
      planOpen && !admitted ==>
        && multiset(candidates) <= multiset(Waiting(pending.members))
        && (!memory ==> |candidates| as real <= quota)
        && (candidates != [] ==> unacknowledged < maxUnacknowledged)
    }

    constructor (memory: bool, limit: nat)
      ensures Valid() && this.memory == memory && fresh(pending) && fresh(pending.slots) && fresh(pending.spare)
      ensures pending.members == {} && pending.limit == limit && quota == 0.0 && unacknowledged == 0 && maxUnacknowledged == 1
    {
      this.memory := memory;
      pending := new PendingPositions.PendingSet(limit);
      candidates, desired, quota, unacknowledged, maxUnacknowledged := [], 9.0, 0.0, 0, 1;
      lastTick, admitted, planOpen := None, false, false;
    }

    /**
     A sender with nothing pending. Both tables, the candidates and the sort scratch are taken
     out of the control bytes before anything is built.
     */
    static method New(memory: bool, limit: nat, controlBytes: nat) returns (r: Result<ChunkSender, SendError>)
      ensures r.Err? ==> r.error == if limit == 0 || limit > 3 * 0x1000_0000 then InvalidLimits else ControlBudget
      ensures r.Err? <==>
        || limit == 0 || limit > 3 * 0x1000_0000
        || 16 * PendingPositions.PhysicalBuckets(limit) + 16 * (if memory || limit < 64 then limit else 64) > controlBytes
      ensures r.Ok? ==>
        && fresh(r.value) && r.value.Valid() && r.value.memory == memory
        && r.value.pending.limit == limit && r.value.pending.members == {}
    {
      if limit == 0 || limit > MAX_PENDING {
        return Err(InvalidLimits);
      }
      var buckets, selection := PendingPositions.PhysicalBuckets(limit), SelectionRoom(memory, limit);
      var slots := Reserve(buckets, controlBytes);
      if slots.Err? {
        return Err(slots.error);
      }
      var spare := Reserve(buckets, slots.value);
      if spare.Err? {
        return Err(spare.error);
      }
      var candidates := Reserve(selection, spare.value);
      if candidates.Err? {
        return Err(candidates.error);
      }
      var scratch := Reserve(selection, candidates.value);
      if scratch.Err? {
        return Err(scratch.error);
      }
      var sender := new ChunkSender(memory, limit);
      r := Ok(sender);
    }

    method MarkPending(position: ChunkAddress) returns (r: Result<bool, PendingPositions.Error>)
      requires Valid()
      modifies this, pending, pending.slots, pending.spare
      ensures Valid() && quota == old(quota) && unacknowledged == old(unacknowledged)
      ensures r == Ok(true) ==> Waiting(pending.members) == old(Waiting(pending.members)) + {position}
      ensures r != Ok(true) ==> pending.members == old(pending.members)
      ensures r == Ok(false) <==> position in old(Waiting(pending.members))
    {
      hide PendingPositions.PendingSet.Core, Waiting;
      ghost var members := pending.members;
      WaitingIff(members, position);
      planOpen := false;
      r := pending.Insert(Pack(position));
      WaitingAdd(members, position);
    }

    /** A pending position is withdrawn silently; otherwise a living player is told to forget it. */
    method DropChunk(position: ChunkAddress, alive: bool, delivery: ChunkDeliveryQueue) returns (r: Result<DropOutcome, SendError>)
      requires Valid() && delivery.Valid()
      modifies this, pending, pending.slots, pending.spare, delivery
      ensures Valid() && delivery.Valid() && quota == old(quota) && unacknowledged == old(unacknowledged)
      ensures position in old(Waiting(pending.members)) ==> r == Ok(RemovedPending)
      ensures position !in old(Waiting(pending.members)) ==>
        r == if !alive then Ok(NoForget) else if old(delivery.CheckGroup()).Some? then Err(old(delivery.CheckGroup()).value) else Ok(ForgetQueued)
      ensures Waiting(pending.members) == old(Waiting(pending.members)) - {position}
      ensures delivery.groups == old(delivery.groups) + if r == Ok(ForgetQueued) then [ForgetGroup(position)] else []
    {
      hide PendingPositions.PendingSet.Core, Waiting, OpenOk, CutOk, Charges;
      ghost var members := pending.members;
      WaitingIff(members, position);
      WaitingRemove(members, position);
      planOpen := false;
      var removed := pending.Remove(Pack(position));
      if removed {
        return Ok(RemovedPending);
      }
      if !alive {
        return Ok(NoForget);
      }
      var refused := delivery.CheckGroup();
      if refused.Some? {
        return Err(refused.value);
      }
      delivery.Push(ForgetGroup(position));
      r := Ok(ForgetQueued);
    }

    /** An acknowledgement is accepted even when nothing is outstanding; it opens the full window. */
    method Acknowledge(request: Request)
      requires Valid()
      modifies `unacknowledged, `desired, `quota, `maxUnacknowledged, `planOpen
      ensures Valid() && maxUnacknowledged == 10 && desired == Clamped(request)
      ensures unacknowledged == if old(unacknowledged) == 0 then 0 else old(unacknowledged) - 1
      ensures quota == if unacknowledged == 0 then 1.0 else old(quota)
    {
      planOpen := false;
      unacknowledged := if unacknowledged == 0 then 0 else unacknowledged - 1;
      desired := Clamped(request);
      if unacknowledged == 0 {
        quota := 1.0;
      }
      maxUnacknowledged := MAX_WINDOW;
    }

    /** What the accrued quota lets this tick offer. */
    method Offer(quota: real, center: ChunkAddress) returns (offered: seq<ChunkAddress>)
      requires pending.Valid() && quota <= MAX_CHUNKS_PER_TICK
      ensures Chosen(offered, pending.Order(), pending.members, memory, quota, center)
      ensures multiset(offered) <= multiset(Waiting(pending.members)) && (!memory && quota >= 0.0 ==> |offered| as real <= quota)
    {
      hide PendingPositions.PendingSet.Valid, Waiting, Chosen;
      if quota < 1.0 {
        NothingChosen(pending.Order(), pending.members, memory, quota, center);
        return [];
      }
      var keys := pending.Stream();
      PendingCount(pending);
      offered := Choose(keys, pending.members, pending.len, memory, quota, center);
    }

    /** Accrues one tick of quota and, inside the window, fixes this tick's candidates. */
    method BeginTick(tick: u64, center: ChunkAddress) returns (r: Result<(), SendError>)
      requires Valid()
      modifies `lastTick, `candidates, `quota, `admitted, `planOpen
      ensures Valid()
      ensures r == if old(lastTick).Some? && tick <= old(lastTick).value then Err(TickAlreadyStarted) else Ok(())
      ensures r.Err? ==> lastTick == old(lastTick) && quota == old(quota) && candidates == old(candidates)
      ensures r.Ok? ==> lastTick == Some(tick) && planOpen && !admitted
      ensures r.Ok? && unacknowledged >= maxUnacknowledged ==> candidates == [] && quota == old(quota)
      ensures r.Ok? && unacknowledged < maxUnacknowledged ==>
        var cap := if desired < 1.0 then 1.0 else desired;
        && quota == (if old(quota) + desired < cap then old(quota) + desired else cap)
        && Chosen(candidates, pending.Order(), pending.members, memory, quota, center)
      ensures r.Ok? && unacknowledged < maxUnacknowledged ==>
        var waiting := Waiting(pending.members);
        if quota < 1.0 then candidates == []
        else Nearby(candidates, waiting, center) && |candidates| == if memory || |waiting| <= quota.Floor then |waiting| else quota.Floor
    {
      hide PendingPositions.PendingSet.Valid, PendingPositions.PendingSet.Order, Waiting, Chosen, Nearby;
      if lastTick.Some? && tick <= lastTick.value {
        planOpen := false;
        return Err(TickAlreadyStarted);
      }
      var offered, accrued := [], quota;
      if unacknowledged < maxUnacknowledged {
        var cap := if desired < 1.0 then 1.0 else desired;
        accrued := if quota + desired < cap then quota + desired else cap;
        offered := Offer(accrued, center);
        ChosenMeans(offered, pending.Order(), pending.members, memory, accrued, center);
      }
      lastTick, quota, candidates, planOpen, admitted := Some(tick), accrued, offered, true, false;
      r := Ok(());
    }

    /**
     Admits the ready candidates as one group. Every refusal leaves the sender and the queue as
     they were; success removes exactly the delivered positions and charges the window once.
     */
    method TryAdmit(delivery: ChunkDeliveryQueue, ready: seq<Option<SendReady>>)
        returns (r: Result<AdmissionOutcome, SendError>, ghost at: seq<nat>)
      requires Valid() && delivery.Valid() && planOpen
      modifies `quota, `unacknowledged, `admitted, pending, pending.slots, pending.spare, delivery
      ensures Valid() && delivery.Valid()
      ensures var chunks := Present(ready);
        r == if old(admitted) then Err(AlreadyAdmitted)
             else if !Matches(candidates, ready) then Err(InvalidReadiness)
             else if chunks == [] then Ok(NoReadyChunks)
             else if old(delivery.CheckGroup()).Some? then Err(old(delivery.CheckGroup()).value)
             else if |chunks| * delivery.spanBytes + TotalBytes(chunks) > delivery.maxBytes - old(delivery.usedBytes) then Err(DeliveryBytes)
             else Ok(Admitted(|chunks|, TotalBytes(chunks)))
      ensures !(r.Ok? && r.value.Admitted?) ==>
        && quota == old(quota) && unacknowledged == old(unacknowledged) && admitted == old(admitted)
        && pending.members == old(pending.members)
        && delivery.groups == old(delivery.groups) && delivery.usedBytes == old(delivery.usedBytes)
      ensures r.Ok? && r.value.Admitted? ==>
        var chunks := Present(ready);
        && quota == old(quota) - |chunks| as real && unacknowledged == old(unacknowledged) + 1 && admitted
        && Waiting(pending.members) == old(Waiting(pending.members)) - (set p | p in Positions(chunks))
        && |delivery.groups| == |old(delivery.groups)| + 1 && delivery.groups[..|old(delivery.groups)|] == old(delivery.groups)
        && var g := delivery.groups[|old(delivery.groups)|];
           g.Valid() && g.Packets() == [Start] + DataPackets(chunks) + [Finish(|chunks|)]
      ensures r == Err(InvalidReadiness) <==>
        && !old(admitted)
        && (|ready| != |candidates|
            || (exists i :: 0 <= i < |ready| && ready[i].Some? && (ready[i].value.position != candidates[i] || ready[i].value.bytes == [])))
      ensures Climbs(at) && forall k :: 0 <= k < |ready| ==> (k in at <==> ready[k].Some?)
      ensures r == Ok(NoReadyChunks) ==> at == []
      ensures r.Ok? && r.value.Admitted? ==> Delivered(candidates, ready, at, r.value.chunks, delivery.groups)
      ensures r.Ok? && r.value.Admitted? ==> forall p :: p in Waiting(pending.members) <==>
        p in old(Waiting(pending.members)) && !(exists i :: 0 <= i < |ready| && ready[i].Some? && candidates[i] == p)
    {
      hide Delivered, Climbs,  PendingPositions.PendingSet.Core, Waiting, OpenOk, CutOk, Charges, Present, TotalBytes, DataPackets, Positions, Matches, Group.Packets;
      at := PresentMeans(ready);
      MatchesMeans(candidates, ready);
      if admitted {
        return Err(AlreadyAdmitted), at;
      }
      var measured := Measure(candidates, ready);
      if measured.Err? {
        return Err(InvalidReadiness), at;
      }
      var chunks := measured.value;
      PresentFromCandidates(candidates, ready);
      if chunks == [] {
        return Ok(NoReadyChunks), at;
      }
      var refused := delivery.CheckGroup();
      if refused.Some? {
        return Err(refused.value), at;
      }
      var bytes := TotalBytes(chunks);
      if |chunks| * delivery.spanBytes + bytes > delivery.maxBytes - delivery.usedBytes {
        return Err(DeliveryBytes), at;
      }
      var batch := PackBatch(chunks);
      delivery.Push(batch);
      Withdraw(pending, chunks);
      unacknowledged := unacknowledged + 1;
      quota := quota - |chunks| as real;
      admitted := true;
      DeliveredMeans(candidates, ready, at, delivery.groups);
      r := Ok(Admitted(|chunks|, bytes));
    }
  }

  lemma OnceEach(positions: seq<ChunkAddress>, s: set<ChunkAddress>)
    requires multiset(positions) <= multiset(s)
    ensures forall i :: 0 <= i < |positions| ==> positions[i] in s
    ensures forall i, j :: 0 <= i < j < |positions| ==> positions[i] != positions[j]
  {
    forall i | 0 <= i < |positions| ensures positions[i] in s {
      assert positions[i] in multiset(positions);
    }
    forall i, j | 0 <= i < j < |positions| ensures positions[i] != positions[j] {
      if positions[i] == positions[j] {
        TwiceCounts(positions, i, j);
        assert false;
      }
    }
  }

  lemma TwiceCounts(s: seq<ChunkAddress>, i: nat, j: nat)
    requires i < j < |s| && s[i] == s[j]
    ensures multiset(s)[s[j]] >= 2
  {
    assert s == s[..j] + [s[j]] + s[j + 1..];
    assert s[..j][i] == s[j];
  }

  /** Removes the delivered positions one by one; each of them was still waiting. */
  method Withdraw(pending: PendingPositions.PendingSet, chunks: seq<SendReady>)
    requires pending.Valid() && multiset(Positions(chunks)) <= multiset(Waiting(pending.members))
    modifies pending, pending.slots, pending.spare
    ensures pending.Valid() && pending.SameTables()
    ensures Waiting(pending.members) == old(Waiting(pending.members)) - (set p | p in Positions(chunks))
  {
    hide PendingPositions.PendingSet.Core, Waiting;
    ghost var start := Waiting(pending.members);
    OnceEach(Positions(chunks), start);
    for i := 0 to |chunks|
      invariant pending.Valid() && pending.SameTables()
      invariant Waiting(pending.members) == start - (set p | p in Positions(chunks[..i]))
    {
      var p := chunks[i].position;
      WaitingRemove(pending.members, p);
      WaitingIff(pending.members, p);
      assert p == Positions(chunks)[i] && forall k :: 0 <= k < i ==> Positions(chunks[..i])[k] == Positions(chunks)[k];
      assert Positions(chunks[..i + 1]) == Positions(chunks[..i]) + [p];
      var removed := pending.Remove(Pack(p));
      assert removed;
    }
    assert chunks[..|chunks|] == chunks;
  }

  lemma WaitingAdd(members: set<u64>, p: ChunkAddress)
    ensures Waiting(members + {Pack(p)}) == Waiting(members) + {p}
  {
    forall q ensures q in Waiting(members + {Pack(p)}) <==> q in Waiting(members) + {p} {
      WaitingIff(members + {Pack(p)}, q);
      WaitingIff(members, q);
      PackRoundTrips(p);
      PackRoundTrips(q);
    }
  }

  lemma WaitingRemove(members: set<u64>, p: ChunkAddress)
    ensures Waiting(members - {Pack(p)}) == Waiting(members) - {p}
  {
    forall q ensures q in Waiting(members - {Pack(p)}) <==> q in Waiting(members) - {p} {
      WaitingIff(members - {Pack(p)}, q);
      WaitingIff(members, q);
      PackRoundTrips(p);
      PackRoundTrips(q);
    }
  }

  lemma PendingCount(pending: PendingPositions.PendingSet)
    requires pending.Valid()
    ensures pending.len == |pending.members|
  {
  }

  lemma NothingChosen(keys: seq<u64>, members: set<u64>, memory: bool, quota: real, center: ChunkAddress)
    requires quota < 1.0
    ensures Chosen([], keys, members, memory, quota, center)
  {
  }
}
