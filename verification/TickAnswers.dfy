/**
 When the question whether a tick is scheduled is answered right: after a chunk was loaded, in
 every continuation, exactly if no identity was saved twice.
 */
module TickAnswers {
  import opened World
  import opened TickTypes
  import opened TickHeap
  import opened TickState
  import opened TickPhase
  import opened TickQueues
  import opened TickArea
  import opened TickExact
  import opened TickOwner

  /** The duplicate set holds exactly the identities that are queued or pending. */
  ghost predicate Precise(q: ChunkQueue) {
    forall id :: id in q.identities <==> Holds(q, id)
  }

  /** Every question about a registered chunk is answered right. */
  ghost predicate AnswersRight(chunks: Chunks) {
    forall a, d :: Registered(chunks, a) ==> Precise(chunks[a].Queue(d))
  }

  lemma ExactAnswersRight(chunks: Chunks)
    requires AllExact(chunks)
    ensures AnswersRight(chunks)
  {
    hide ExactQueue, Holds;
    forall a, d | Registered(chunks, a) ensures Precise(chunks[a].Queue(d)) {
      forall id ensures id in chunks[a].Queue(d).identities <==> Holds(chunks[a].Queue(d), id) {
        ExactHolds(chunks[a].Queue(d), id);
      }
    }
  }

  /** Right after a load the set is precise, whatever was saved: a repeat shows only later. */
  lemma LoadedIsPrecise(saved: seq<SavedTick>)
    ensures Precise(Loaded(saved))
  {
  }

  // ----- runs -----

  ghost predicate Run(states: seq<Chunks>, ops: seq<Operation>) {
    |states| == |ops| + 1 && forall k :: 0 <= k < |ops| ==> Follows(states[k], ops[k], states[k + 1])
  }

  lemma RunFrom(before: Chunks, op: Operation, states: seq<Chunks>, ops: seq<Operation>)
    requires Run(states, ops) && Follows(before, op, states[0])
    ensures Run([before] + states, [op] + ops)
  {
    hide Follows;
    var s, o := [before] + states, [op] + ops;
    forall k | 0 <= k < |o| ensures Follows(s[k], o[k], s[k + 1]) {
      if k > 0 {
        assert Follows(states[k - 1], ops[k - 1], states[k]);
      }
    }
  }

  lemma {:induction false} RunKeepsAllExact(states: seq<Chunks>, ops: seq<Operation>)
    requires Run(states, ops) && AllExact(states[0])
    ensures AllExact(states[|ops|])
    decreases |ops|
  {
    hide Follows, AllExact;
    if ops != [] {
      var n := |ops| - 1;
      forall k | 0 <= k < n ensures Follows(states[..n + 1][k], ops[..n][k], states[..n + 1][k + 1]) {
        assert Follows(states[k], ops[k], states[k + 1]);
      }
      RunKeepsAllExact(states[..n + 1], ops[..n]);
      assert Follows(states[n], ops[n], states[n + 1]);
      StepKeepsAllExact(states[n], ops[n], states[n + 1]);
    }
  }

  // ----- heaps and heads exist -----

  ghost predicate InOrder(v: Heap) {
    forall i, j :: 0 <= i < j < |v| ==> Le(v[i], v[j])
  }

  lemma {:induction false} Inserted(v: Heap, t: ScheduledTick) returns (r: Heap)
    requires InOrder(v)
    ensures InOrder(r) && multiset(r) == multiset(v) + multiset{t}
  {
    hide Le;
    if v == [] || Le(t, v[0]) {
      r := [t] + v;
      forall i | 0 <= i < |v| ensures Le(t, v[i]) {
        LeChains(t, v[0], v[i]);
      }
    } else {
      var rest := Inserted(v[1..], t);
      assert v == [v[0]] + v[1..];
      r := [v[0]] + rest;
      LeTotal(t, v[0]);
      forall x | x in rest ensures Le(v[0], x) {
        assert x in multiset(rest);
        assert x in v[1..] || x == t;
      }
    }
  }

  lemma LeTotal(a: ScheduledTick, b: ScheduledTick)
    ensures Le(a, b) || Le(b, a)
  {
  }

  lemma LeChains(a: ScheduledTick, b: ScheduledTick, c: ScheduledTick)
    requires Le(a, b) && (b == c || Le(b, c))
    ensures Le(a, c)
  {
  }

  lemma {:induction false} HeapExists(ticks: seq<ScheduledTick>) returns (heap: Heap)
    ensures IsHeap(heap) && multiset(heap) == multiset(ticks)
  {
    heap := [];
    for i := 0 to |ticks|
      invariant InOrder(heap) && multiset(heap) == multiset(ticks[..i])
    {
      heap := Inserted(heap, ticks[i]);
      assert ticks[..i + 1] == ticks[..i] + [ticks[i]];
    }
    assert ticks[..|ticks|] == ticks;
  }

  lemma {:induction false} LeastHead(chunks: Chunks, d: TickDomain, due: set<ChunkAddress>) returns (pick: ChunkAddress)
    requires due != {} && forall a :: a in due ==> Live(chunks, d, a)
    ensures pick in due && forall b :: b in due ==> !WithinBefore(Head(chunks, d, b), Head(chunks, d, pick))
  {
    var x :| x in due;
    var rest := due - {x};
    pick := x;
    if rest != {} {
      var other := LeastHead(chunks, d, rest);
      if WithinBefore(Head(chunks, d, other), Head(chunks, d, x)) {
        pick := other;
      }
    }
    forall b | b in due ensures !WithinBefore(Head(chunks, d, b), Head(chunks, d, pick)) {
      assert b == x || b in rest;
    }
  }

  const LAST: i64 := 0x7fff_ffff_ffff_ffff

  /** While some registered eligible chunk has a tick, a phase late enough can take one. */
  lemma OneMore(chunks: Chunks, d: TickDomain, a: ChunkAddress) returns (pick: ChunkAddress, after: Chunks)
    requires Live(chunks, d, a) && chunks[a].eligible
    ensures Live(chunks, d, pick) && Step(chunks, after, pick, Head(chunks, d, pick), d, LAST)
  {
    var due := set b | b in chunks && Due(chunks, d, LAST, b);
    assert a in due;
    pick := LeastHead(chunks, d, due);
    var q := chunks[pick].Queue(d);
    var heap := HeapExists(q.heap[1..]);
    assert q.heap == [q.heap[0]] + q.heap[1..];
    var r := q.(heap := heap, identities := q.identities - {q.heap[0].Id()});
    after := chunks[pick := chunks[pick].With(d, r)];
    assert after[pick].Queue(d) == r;
  }

  ghost function OneTaken(before: Chunks, after: Chunks, d: TickDomain, pick: ChunkAddress): Operation
    requires Live(before, d, pick)
  {
    var tick := Head(before, d, pick);
    Collecting(d, LAST, 1, [tick], Progress(after, [tick], multiset{tick.Id()}, [before, after], [pick]))
  }

  /** A phase with a cap of one. */
  lemma OneTakenFollows(before: Chunks, after: Chunks, d: TickDomain, pick: ChunkAddress)
    requires Live(before, d, pick) && Step(before, after, pick, Head(before, d, pick), d, LAST)
    ensures Follows(before, OneTaken(before, after, d, pick), after)
  {
    hide Step;
    var run := OneTaken(before, after, d, pick).run;
    forall k | 0 <= k < |run.picks| ensures Step(run.states[k], run.states[k + 1], run.picks[k], [Head(before, d, pick)][k], d, LAST) {
      assert k == 0;
    }
    assert Greedy(run.states, run.picks, [Head(before, d, pick)], d, LAST);
  }

  // ----- what a repeated identity leads to -----

  /** Some identity is live twice in one queue. */
  ghost predicate Twice(q: ChunkQueue) {
    exists id :: multiset(Ids(q.heap))[id] >= 2
  }

  /** Taking the head of such a queue hides its other entry, or leaves another identity twice. */
  lemma TakenOrTwice(before: Chunks, after: Chunks, d: TickDomain, a: ChunkAddress)
    requires Pops(before, after, d, a) && Twice(before[a].Queue(d))
    ensures !Precise(after[a].Queue(d)) || Twice(after[a].Queue(d))
  {
    var q, r := before[a].Queue(d), after[a].Queue(d);
    var head := q.heap[0].Id();
    if multiset(Ids(q.heap))[head] >= 2 {
      DuplicateSavedHides(before, after, d, a);
    } else {
      var id :| multiset(Ids(q.heap))[id] >= 2;
      IdsOfSum(q.heap, r.heap, [q.heap[0]]);
      assert Ids([q.heap[0]]) == [head];
      assert multiset(Ids(r.heap))[id] >= 2;
    }
  }

  /** Every operation is a phase that takes at most one tick. */
  ghost predicate OnlyPhases(ops: seq<Operation>) {
    forall op :: op in ops ==> op.Collecting? && op.max == 1
  }

  /** Phases alone lead from an identity live twice to a wrong answer. */
  lemma {:induction false} PhasesGoWrong(chunks: Chunks, d: TickDomain, a: ChunkAddress) returns (states: seq<Chunks>, ops: seq<Operation>)
    requires Registered(chunks, a) && chunks[a].eligible && Twice(chunks[a].Queue(d))
    ensures Run(states, ops) && states[0] == chunks && OnlyPhases(ops)
    ensures Registered(states[|ops|], a) && !Precise(states[|ops|][a].Queue(d))
    decreases LiveCount(chunks, d)
  {
    hide Follows, Precise, Twice, LiveCount, CanSelect;
    TwiceIsLive(chunks[a].Queue(d));
    var pick, after := OneMore(chunks, d, a);
    OneTakenFollows(chunks, after, d, pick);
    var op := OneTaken(chunks, after, d, pick);
    FewerLive(chunks, after, d, pick);
    if pick == a {
      TakenOrTwice(chunks, after, d, a);
    } else {
      assert after[a] == chunks[a];
    }
    if pick == a && !Precise(after[a].Queue(d)) {
      states, ops := [after], [];
    } else {
      states, ops := PhasesGoWrong(after, d, a);
    }
    RunFrom(chunks, op, states, ops);
    states, ops := [chunks] + states, [op] + ops;
  }

  lemma TwiceIsLive(q: ChunkQueue)
    requires Twice(q)
    ensures q.heap != []
  {
  }

  lemma FewerLive(before: Chunks, after: Chunks, d: TickDomain, a: ChunkAddress)
    requires Pops(before, after, d, a)
    ensures LiveCount(after, d) < LiveCount(before, d)
  {
    hide LiveCount;
    var q, r := before[a].Queue(d), after[a].Queue(d);
    assert |multiset(q.heap)| == |multiset(r.heap)| + 1;
    LiveCountUpdate(before, d, a, r);
  }

  // ----- from the saved list to the answer -----

  function WithLoaded(chunks: Chunks, a: ChunkAddress, blocks: seq<SavedTick>, fluids: seq<SavedTick>): Chunks {
    chunks[a := ChunkQueues(false, false, Loaded(blocks), Loaded(fluids))]
  }

  /** Unpacking makes every saved entry live, so an identity saved twice is live twice. */
  lemma UnpackedTwice(a: ChunkAddress, saved: seq<SavedTick>, time: i64) returns (q: ChunkQueue)
    requires |saved| < 0x8000_0000
    ensures Unpacks(a, Loaded(saved), q, time) && (!DistinctSaved(saved) ==> Twice(q))
  {
    var all := AllUnpacked(saved, time);
    var heap := HeapExists(all);
    q := ChunkQueue(heap, Loaded(saved).identities, None);
    assert |multiset(heap)| == |multiset(all)|;
    if !DistinctSaved(saved) {
      var i, j :| 0 <= i < j < |saved| && saved[i].Id() == saved[j].Id();
      var ids := Ids(all);
      IdsOfPermutation(heap, all);
      assert ids == ids[..j] + [ids[j]] + ids[j + 1..];
      assert ids[..j][i] == ids[j];
      assert multiset(ids)[ids[j]] >= 2;
    }
  }

  /** Registering, unpacking and collecting a chunk in which an identity was saved twice goes wrong. */
  lemma RepeatGoesWrong(before: Chunks, a: ChunkAddress, blocks: seq<SavedTick>, fluids: seq<SavedTick>)
      returns (states: seq<Chunks>, ops: seq<Operation>)
    requires |blocks| < 0x8000_0000 && |fluids| < 0x8000_0000 && !(DistinctSaved(blocks) && DistinctSaved(fluids))
    ensures Run(states, ops) && states[0] == WithLoaded(before, a, blocks, fluids)
    ensures |ops| >= 2 && ops[0] == Register(a, true) && ops[1] == Unpacking(a, 0) && OnlyPhases(ops[2..])
    ensures Registered(states[|ops|], a) && !AnswersRight(states[|ops|])
  {
    hide Precise, Twice, DistinctSaved, Unpacks;
    var d := if DistinctSaved(blocks) then Fluid else Block;
    var loaded := WithLoaded(before, a, blocks, fluids);
    var known := loaded[a := loaded[a].(registered := true, eligible := true)];
    var b := UnpackedTwice(a, blocks, 0);
    var f := UnpackedTwice(a, fluids, 0);
    var open := known[a := ChunkQueues(true, true, b, f)];
    assert ChunkUnpacked(known, open, a, 0);
    assert Follows(known, Unpacking(a, 0), open);
    assert Follows(loaded, Register(a, true), known);
    assert Twice(open[a].Queue(d));
    var s, o := PhasesGoWrong(open, d, a);
    RunFrom(known, Unpacking(a, 0), s, o);
    RunFrom(loaded, Register(a, true), [known] + s, [Unpacking(a, 0)] + o);
    states, ops := [loaded] + ([known] + s), [Register(a, true)] + ([Unpacking(a, 0)] + o);
    assert ops[2..] == o;
    assert !Precise(states[|ops|][a].Queue(d));
  }

  /** Every continuation answers right exactly if no identity was saved twice. */
  lemma LoadedAnswersRightExactly(before: Chunks, a: ChunkAddress, blocks: seq<SavedTick>, fluids: seq<SavedTick>)
    requires AllExact(before) && |blocks| < 0x8000_0000 && |fluids| < 0x8000_0000
    ensures (forall states: seq<Chunks>, ops: seq<Operation> ::
               Run(states, ops) && states[0] == WithLoaded(before, a, blocks, fluids) ==> AnswersRight(states[|ops|]))
            <==> DistinctSaved(blocks) && DistinctSaved(fluids)
  {
    hide AllExact, AnswersRight, Follows, DistinctSaved, Loaded;
    if DistinctSaved(blocks) && DistinctSaved(fluids) {
      LoadKeepsAllExact(before, a, blocks, fluids);
      forall states: seq<Chunks>, ops: seq<Operation> | Run(states, ops) && states[0] == WithLoaded(before, a, blocks, fluids)
        ensures AnswersRight(states[|ops|])
      {
        RunKeepsAllExact(states, ops);
        ExactAnswersRight(states[|ops|]);
      }
    } else {
      var states, ops := RepeatGoesWrong(before, a, blocks, fluids);
      assert Run(states, ops) && states[0] == WithLoaded(before, a, blocks, fluids) && !AnswersRight(states[|ops|]);
    }
  }

  // ----- the smallest failing run -----

  /** The one tick a phase with a cap of one takes from the only due chunk. */
  lemma OnlyOneTaken(before: Chunks, after: Chunks, selected: seq<ScheduledTick>, d: TickDomain, time: i64, run: Progress, a: ChunkAddress)
    requires Collects(before, after, selected, d, time, 1, run) && before.Keys == {a} && Due(before, d, time, a)
    ensures Pops(before, after, d, a)
  {
    if |selected| == 0 {
      assert false;
    }
    assert Step(run.states[0], run.states[1], run.picks[0], selected[0], d, time);
  }

  /**
   One tick saved twice in the only chunk: it is known to be scheduled, and after a phase that
   takes one of the two it is not, although the other is still queued.
   */
  method SavedTwice(s: SavedTick) returns (owner: ScheduledTickOwner, first: bool, second: bool)
    requires s.typeId < 0xffff_ffff
    ensures fresh(owner) && owner.Valid() && first && !second
    ensures Registered(owner.chunks, s.position.Chunk()) && Holds(owner.chunks[s.position.Chunk()].blocks, s.Id())
  {
    hide ScheduledTickOwner.Valid, Unpacks, Collects, AllExact, ExactQueue, Holds, Follows, DistinctSaved, QueueOk;
    var a := s.position.Chunk();
    var created := ScheduledTickOwner.New(s.typeId + 1, 1, 1, 2, 1);
    owner := created.value;
    HereTwice(s);
    var loaded := owner.LoadPendingChunk(a, [s, s], []);
    var registered := owner.RegisterChunk(a, true);
    var unpacked := owner.UnpackChunk(a, 0);
    ghost var before := owner.chunks;
    TwiceUnpacked(before[a].blocks, a, s);
    first := owner.HasScheduled(Block, s.position, s.typeId);
    var begun, run := owner.BeginPhase(Block, LAST, 1);
    OnlyOneTaken(before, owner.chunks, owner.selected, Block, LAST, run, a);
    DuplicateSavedHides(before, owner.chunks, Block, a);
    second := owner.HasScheduled(Block, s.position, s.typeId);
  }

  lemma HereTwice(s: SavedTick)
    ensures Here([s, s], s.position.Chunk()) == [s, s] && Here([], s.position.Chunk()) == []
    ensures Loaded([s, s]).identities == {s.Id()}
  {
    assert [s, s][..1] == [s] && [s][..0] == [];
    assert Here([s], s.position.Chunk()) == [s];
  }

  lemma TwiceUnpacked(q: ChunkQueue, a: ChunkAddress, s: SavedTick)
    requires Unpacks(a, Loaded([s, s]), q, 0)
    ensures q.heap != [] && q.heap[0].Id() == s.Id() && multiset(Ids(q.heap))[s.Id()] >= 2 && q.identities == {s.Id()}
  {
    hide AllUnpacked;
    HereTwice(s);
    var all := AllUnpacked([s, s], 0);
    UnpackedIds([s, s], 0);
    IdsOfPermutation(q.heap, all);
    assert SavedIds([s, s]) == [s.Id(), s.Id()];
    assert |Ids(q.heap)| == |multiset(Ids(q.heap))| == 2;
    assert Ids(q.heap)[0] in multiset(Ids(q.heap));
  }

  lemma UnpackedIds(saved: seq<SavedTick>, time: i64)
    requires |saved| < 0x8000_0000
    ensures Ids(AllUnpacked(saved, time)) == SavedIds(saved)
  {
  }
}
