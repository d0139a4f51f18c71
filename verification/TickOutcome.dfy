/** A phase's selection is determined by the queued ticks: how chunks are batched cannot change it. */
module TickOutcome {
  import opened World
  import opened TickTypes
  import opened TickHeap
  import opened TickState
  import opened TickOwner
  import opened TickPhase

  /** Two states queue the same ticks in the same chunks, in whatever heap layout. */
  ghost predicate SameQueued(a: Chunks, b: Chunks, d: TickDomain) {
    a.Keys == b.Keys && forall c :: c in a ==>
      && a[c].registered == b[c].registered && a[c].eligible == b[c].eligible
      && multiset(a[c].Queue(d).heap) == multiset(b[c].Queue(d).heap)
  }

  /** Queued ticks of one domain are told apart by priority and sub-tick order. */
  ghost predicate NoTies(chunks: Chunks, d: TickDomain) {
    forall a, b, t, u | a in chunks && b in chunks && t in chunks[a].Queue(d).heap && u in chunks[b].Queue(d).heap ::
      WithinBefore(t, u) || WithinBefore(u, t) || t == u
  }

  lemma SameMembers(a: Heap, b: Heap)
    requires multiset(a) == multiset(b)
    ensures |a| == |b| && forall t :: t in a <==> t in b
  {
    assert |multiset(a)| == |multiset(b)|;
    forall t ensures t in a <==> t in b {
      assert t in multiset(a) <==> t in multiset(b);
    }
  }

  lemma HeadsAgree(a: Chunks, b: Chunks, d: TickDomain, limit: nat, c: ChunkAddress)
    requires SameQueued(a, b, d) && NoTies(a, d) && ChunksOk(a, limit) && ChunksOk(b, limit)
    ensures Live(a, d, c) == Live(b, d, c)
    ensures Live(a, d, c) ==> Head(a, d, c) == Head(b, d, c)
  {
    if c in a {
      var p, q := a[c].Queue(d).heap, b[c].Queue(d).heap;
      SameMembers(p, q);
      if p != [] {
        assert QueueOk(c, a[c].Queue(d), limit) && QueueOk(c, b[c].Queue(d), limit);
        RootLeast(p, q[0]);
        RootLeast(q, p[0]);
      }
    }
  }

  lemma RootLeast(heap: Heap, t: ScheduledTick)
    requires IsHeap(heap) && t in heap
    ensures Le(heap[0], t)
  {
    var i :| 0 <= i < |heap| && heap[i] == t;
    RootIsLeast(heap, i);
  }

  lemma DueAgrees(a: Chunks, b: Chunks, d: TickDomain, time: i64, limit: nat, c: ChunkAddress)
    requires SameQueued(a, b, d) && NoTies(a, d) && ChunksOk(a, limit) && ChunksOk(b, limit)
    ensures Due(a, d, time, c) == Due(b, d, time, c)
  {
    HeadsAgree(a, b, d, limit, c);
  }

  /** Both sides must select the same head from the same chunk. */
  lemma PicksAgree(a: Chunks, b: Chunks, d: TickDomain, time: i64, limit: nat, c: ChunkAddress, e: ChunkAddress)
    requires SameQueued(a, b, d) && NoTies(a, d) && ChunksOk(a, limit) && ChunksOk(b, limit)
    requires CanSelect(a, d, time, c) && CanSelect(b, d, time, e)
    ensures c == e && Head(a, d, c) == Head(b, d, c)
  {
    HeadsAgree(a, b, d, limit, c);
    HeadsAgree(a, b, d, limit, e);
    DueAgrees(a, b, d, time, limit, c);
    DueAgrees(a, b, d, time, limit, e);
    var t, u := Head(a, d, c), Head(a, d, e);
    assert QueueOk(c, a[c].Queue(d), limit) && QueueOk(e, a[e].Queue(d), limit);
    assert t in a[c].Queue(d).heap && u in a[e].Queue(d).heap;
    assert t == u;
  }

  lemma StepsAgree(a: Chunks, b: Chunks, x: Chunks, y: Chunks, d: TickDomain, time: i64, limit: nat,
                   c: ChunkAddress, e: ChunkAddress, t: ScheduledTick, u: ScheduledTick)
    requires SameQueued(a, b, d) && NoTies(a, d) && ChunksOk(a, limit) && ChunksOk(b, limit)
    requires Step(a, x, c, t, d, time) && Step(b, y, e, u, d, time)
    ensures t == u && SameQueued(x, y, d) && NoTies(x, d) && ChunksOk(x, limit) && ChunksOk(y, limit)
  {
    PicksAgree(a, b, d, time, limit, c, e);
    PopKeepsQueueOk(a, x, d, c, limit);
    PopKeepsQueueOk(b, y, d, e, limit);
    PopKeepsSame(a, b, x, y, d, c);
    PopKeepsNoTies(a, x, d, c);
  }

  lemma PopKeepsSame(a: Chunks, b: Chunks, x: Chunks, y: Chunks, d: TickDomain, c: ChunkAddress)
    requires SameQueued(a, b, d) && Pops(a, x, d, c) && Pops(b, y, d, c) && Head(a, d, c) == Head(b, d, c)
    ensures SameQueued(x, y, d)
  {
    forall k | k in x ensures
      x[k].registered == y[k].registered && x[k].eligible == y[k].eligible
      && multiset(x[k].Queue(d).heap) == multiset(y[k].Queue(d).heap)
    {
      if k == c {
        var t := Head(a, d, c);
        assert multiset(x[c].Queue(d).heap) == multiset(a[c].Queue(d).heap) - multiset{t};
        assert multiset(y[c].Queue(d).heap) == multiset(b[c].Queue(d).heap) - multiset{t};
      }
    }
  }

  lemma PopKeepsNoTies(a: Chunks, x: Chunks, d: TickDomain, c: ChunkAddress)
    requires NoTies(a, d) && Pops(a, x, d, c)
    ensures NoTies(x, d)
  {
    PopKeepsMembers(a[c].Queue(d).heap, x[c].Queue(d).heap);
    forall k, t | k in x && t in x[k].Queue(d).heap ensures k in a && t in a[k].Queue(d).heap {
      if k != c {
        assert x[k] == a[k];
      }
    }
  }

  /** Runs from equal queues agree tick by tick as far as both go. */
  lemma {:induction false} RunsAgree(s: seq<Chunks>, p: seq<ChunkAddress>, t: seq<ScheduledTick>,
                                     s': seq<Chunks>, p': seq<ChunkAddress>, t': seq<ScheduledTick>,
                                     d: TickDomain, time: i64, limit: nat, n: nat)
    requires Greedy(s, p, t, d, time) && Greedy(s', p', t', d, time)
    requires SameQueued(s[0], s'[0], d) && NoTies(s[0], d) && ChunksOk(s[0], limit) && ChunksOk(s'[0], limit)
    requires n <= |t| && n <= |t'|
    ensures t[..n] == t'[..n]
    ensures SameQueued(s[n], s'[n], d) && NoTies(s[n], d) && ChunksOk(s[n], limit) && ChunksOk(s'[n], limit)
  {
    hide SameQueued, NoTies, ChunksOk, Step;
    if n > 0 {
      RunsAgree(s, p, t, s', p', t', d, time, limit, n - 1);
      assert Step(s[n - 1], s[n - 1 + 1], p[n - 1], t[n - 1], d, time);
      assert Step(s'[n - 1], s'[n - 1 + 1], p'[n - 1], t'[n - 1], d, time);
      StepsAgree(s[n - 1], s'[n - 1], s[n], s'[n], d, time, limit, p[n - 1], p'[n - 1], t[n - 1], t'[n - 1]);
      assert t[..n] == t[..n - 1] + [t[n - 1]] && t'[..n] == t'[..n - 1] + [t'[n - 1]];
    }
  }

  /** Any two complete collections of the same queues, up to the same cap, select the same ticks in the same order. */
  lemma PhaseIsDetermined(before: Chunks, before': Chunks, after: Chunks, after': Chunks,
                          t: seq<ScheduledTick>, t': seq<ScheduledTick>, d: TickDomain, time: i64, max: nat, limit: nat,
                          run: Progress, run': Progress)
    requires Collects(before, after, t, d, time, max, run) && Collects(before', after', t', d, time, max, run')
    requires SameQueued(before, before', d) && NoTies(before, d) && ChunksOk(before, limit) && ChunksOk(before', limit)
    ensures t == t' && SameQueued(after, after', d)
  {
    var n := if |t| < |t'| then |t| else |t'|;
    RunsAgree(run.states, run.picks, t, run'.states, run'.picks, t', d, time, limit, n);
    if |t| < |t'| {
      assert Step(run'.states[n], run'.states[n + 1], run'.picks[n], t'[n], d, time);
      DueAgrees(run.states[n], run'.states[n], d, time, limit, run'.picks[n]);
      assert false;
    } else if |t'| < |t| {
      assert Step(run.states[n], run.states[n + 1], run.picks[n], t[n], d, time);
      DueAgrees(run.states[n], run'.states[n], d, time, limit, run.picks[n]);
      assert false;
    }
    assert t[..n] == t && t'[..n] == t';
  }
}
