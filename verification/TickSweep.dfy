/**
 Removing a heap's ticks inside an area in one sweep. Repairing the heap after a removal can
 carry an entry the sweep has not seen to a place it has passed; such an entry is deferred,
 followed through every later swap, and examined at the end.
 */
module TickSweep {
  import opened TickHeap
  import opened TickMoves
  import opened TickTypes
  import opened World

  // ----- deferred entries -----

  function Unheld(n: nat): (r: seq<Option<nat>>)
    ensures |r| == n && forall i :: 0 <= i < n ==> r[i] == None
  {
    seq(n, _ => None)
  }

  /** Two tables that point at each other: each place's ticket, and where each ticket's entry is now. */
  class Revisits {
    var positions: seq<nat>
    var tickets: seq<Option<nat>>

    constructor (capacity: nat)
      ensures positions == [] && tickets == Unheld(capacity) && Linked(0)
    {
      positions, tickets := [], Unheld(capacity);
    }

    /** Tickets from `done` on are held by exactly the places they name. */
    ghost predicate Linked(done: nat)
      reads this
    {
      && done <= |positions|
      && (forall i :: 0 <= i < |tickets| && tickets[i].Some? ==>
            done <= tickets[i].value < |positions| && positions[tickets[i].value] == i)
      && (forall t :: done <= t < |positions| ==> positions[t] < |tickets| && tickets[positions[t]] == Some(t))
    }

    method Defer(position: nat, ghost done: nat)
      requires Linked(done) && position < |tickets| && tickets[position] == None
      modifies this
      ensures Linked(done) && tickets == old(tickets)[position := Some(|old(positions)|)] && |positions| == |old(positions)| + 1
    {
      tickets := tickets[position := Some(|positions|)];
      positions := positions + [position];
    }

    /** Follows one swap of the heap. */
    method Swapped(first: nat, second: nat, ghost done: nat)
      requires Linked(done) && first < |tickets| && second < |tickets|
      modifies this
      ensures Linked(done) && tickets == Swap(old(tickets), first, second) && |positions| == |old(positions)|
    {
      tickets := Swap(tickets, first, second);
      if tickets[first].Some? {
        positions := positions[tickets[first].value := first];
      }
      if tickets[second].Some? {
        positions := positions[tickets[second].value := second];
      }
    }

    method Follow(moves: Moves, ghost done: nat)
      requires Linked(done) && Within(moves, |tickets|)
      modifies this
      ensures Linked(done) && tickets == Moved(old(tickets), moves) && |positions| == |old(positions)|
    {
      hide Linked;
      for i := 0 to |moves|
        invariant Linked(done) && tickets == Moved(old(tickets), moves[..i]) && |positions| == |old(positions)|
      {
        assert moves[..i + 1] == moves[..i] + [moves[i]];
        MovedAppend(old(tickets), moves[..i], moves[i].0, moves[i].1);
        Swapped(moves[i].0, moves[i].1, done);
      }
      assert moves[..|moves|] == moves;
    }

    /** The place a ticket's entry has come to; the ticket is used up. */
    method Take(ticket: nat) returns (position: nat)
      requires Linked(ticket) && ticket < |positions|
      modifies this
      ensures positions == old(positions) && position == positions[ticket]
      ensures position < |old(tickets)| && old(tickets)[position] == Some(ticket)
      ensures tickets == old(tickets)[position := None] && Linked(ticket + 1)
    {
      position := positions[ticket];
      tickets := tickets[position := None];
    }
  }

  // ----- the sweep -----

  /** An entry at a place: examined and kept exactly if it is before the cursor without a ticket. */
  ghost predicate PlaceOk(values: Heap, v: Heap, labels: seq<nat>, tickets: seq<Option<nat>>, seen: set<nat>, cursor: nat,
                          bounds: TickBounds, i: nat)
    requires i < |v| == |labels| <= |tickets|
  {
    && labels[i] < |values| && v[i] == values[labels[i]]
    && (labels[i] in seen <==> i < cursor && tickets[i] == None)
    && (i < cursor && tickets[i] == None ==> !bounds.Contains(v[i].position))
  }

  /** What is no longer in the heap was examined and lies in the area. */
  ghost predicate Covered(values: Heap, labels: seq<nat>, seen: set<nat>, bounds: TickBounds) {
    forall k :: 0 <= k < |values| ==> k in labels || (k in seen && bounds.Contains(values[k].position))
  }

  /**
   What holds during a sweep: `labels` are the original indexes of the entries now in the heap,
   `seen` those examined so far.
   */
  ghost predicate Sweeping(values: Heap, v: Heap, labels: seq<nat>, tickets: seq<Option<nat>>, seen: set<nat>, cursor: nat, bounds: TickBounds) {
    && |labels| == |v| <= |values| == |tickets| && cursor <= |v| && Distinct(labels) && Covered(values, labels, seen, bounds)
    && (forall i :: 0 <= i < |v| ==> PlaceOk(values, v, labels, tickets, seen, cursor, bounds, i))
    && (forall i :: cursor <= i < |tickets| ==> tickets[i] == None)
  }

  /** The heap as `v` after an entry was removed by these swaps. */
  ghost predicate Cut(before: Heap, v: Heap, moves: Moves, index: nat, destination: Option<nat>) {
    && before != [] && Within(moves, |before|) && v == Moved(before, moves)[..|before| - 1]
    && RemovedFrom(Places(|before|, moves), index, destination)
  }

  /** What every table of the heap looks like after a removal. */
  lemma CutTables(before: Heap, v: Heap, moves: Moves, index: nat, destination: Option<nat>, labels: seq<nat>, tickets: seq<Option<nat>>)
      returns (from: seq<nat>)
    requires Cut(before, v, moves, index, destination) && |labels| == |before| <= |tickets| && Distinct(labels)
    ensures |from| == |before| == |v| + 1 && RemovedFrom(from, index, destination) && index < |before|
    ensures forall i :: 0 <= i < |v| ==> from[i] < |before| && labels[from[i]] != labels[index]
    ensures Within(moves, |tickets|)
    ensures forall i :: 0 <= i < |v| ==>
      v[i] == before[from[i]] && Moved(labels, moves)[i] == labels[from[i]] && Moved(tickets, moves)[i] == tickets[from[i]]
    ensures Moved(tickets, moves)[|v|] == tickets[index]
    ensures forall i :: |before| <= i < |tickets| ==> Moved(tickets, moves)[i] == tickets[i]
    ensures Distinct(Moved(labels, moves)[..|v|])
    ensures forall k :: k in labels ==> k == labels[index] || k in Moved(labels, moves)[..|v|]
  {
    hide RemovedFrom, Moved, Places;
    from := Places(|before|, moves);
    MovedBy(before, moves, |before|);
    MovedBy(labels, moves, |before|);
    MovedBy(tickets, moves, |before|);
    MovedDistinct(labels, moves);
    MovedDistinct(Ids(|before|), moves);
    CutEnds(from, index, destination);
    assert from == Moved(Ids(|before|), moves) by { PlacesAre(|before|, moves); }
    KeptMembers(labels, moves, |v|);
  }

  lemma PlacesAre(n: nat, moves: Moves)
    requires Within(moves, n)
    ensures Places(n, moves) == Moved(Ids(n), moves)
  {
  }

  lemma CutEnds(from: seq<nat>, index: nat, destination: Option<nat>)
    requires RemovedFrom(from, index, destination)
    ensures from != [] && index < |from| && from[|from| - 1] == index
  {
  }

  lemma KeptMembers(labels: seq<nat>, moves: Moves, n: nat)
    requires |labels| == n + 1 && Within(moves, |labels|)
    ensures forall k :: k in labels ==> k == Moved(labels, moves)[n] || k in Moved(labels, moves)[..n]
  {
    hide Moved;
    var moved := Moved(labels, moves);
    MovedPermutes(labels, moves);
    assert moved == moved[..n] + [moved[n]];
    forall k | k in labels ensures k == moved[n] || k in moved[..n] {
      assert k in multiset(moved);
    }
  }

  lemma SweepStarts(values: Heap, bounds: TickBounds)
    ensures Sweeping(values, values, Ids(|values|), Unheld(|values|), {}, 0, bounds)
  {
    var labels, tickets, none: set<nat> := Ids(|values|), Unheld(|values|), {};
    forall i | 0 <= i < |values| ensures PlaceOk(values, values, labels, tickets, none, 0, bounds, i) {
      assert labels[i] == i;
    }
    forall k | 0 <= k < |values| ensures k in labels {
      assert labels[k] == k;
    }
    assert Sweeping(values, values, labels, tickets, none, 0, bounds);
  }

  /** Keeping the entry at the cursor. */
  lemma SweepKeeps(values: Heap, v: Heap, labels: seq<nat>, tickets: seq<Option<nat>>, seen: set<nat>, cursor: nat, bounds: TickBounds)
    requires Sweeping(values, v, labels, tickets, seen, cursor, bounds) && cursor < |v| && !bounds.Contains(v[cursor].position)
    ensures labels[cursor] < |values| && labels[cursor] !in seen
    ensures Sweeping(values, v, labels, tickets, seen + {labels[cursor]}, cursor + 1, bounds)
  {
    hide Covered;
    assert PlaceOk(values, v, labels, tickets, seen, cursor, bounds, cursor);
    var after, next := seen + {labels[cursor]}, cursor + 1;
    CoveredBy(values, labels, seen, after, bounds);
    forall i | 0 <= i < |v| ensures PlaceOk(values, v, labels, tickets, after, next, bounds, i) {
      assert i != cursor ==> labels[i] != labels[cursor];
      assert PlaceOk(values, v, labels, tickets, seen, cursor, bounds, i);
    }
  }

  lemma CoveredBy(values: Heap, labels: seq<nat>, seen: set<nat>, more: set<nat>, bounds: TickBounds)
    requires Covered(values, labels, seen, bounds) && seen <= more
    ensures Covered(values, labels, more, bounds)
  {
  }

  /** The removed entry's label moves from the heap to the examined ones. */
  lemma CoveredOn(values: Heap, labels: seq<nat>, seen: set<nat>, index: nat, kept: seq<nat>, bounds: TickBounds)
    requires index < |labels| && Covered(values, labels, seen, bounds)
    requires labels[index] < |values| && bounds.Contains(values[labels[index]].position)
    requires forall k :: k in labels ==> k == labels[index] || k in kept
    ensures Covered(values, kept, seen + {labels[index]}, bounds)
  {
  }

  /** Removing it when nothing before it moves: another unseen entry is at the cursor. */
  lemma SweepRemoves(values: Heap, before: Heap, v: Heap, labels: seq<nat>, tickets: seq<Option<nat>>, seen: set<nat>, cursor: nat,
                     bounds: TickBounds, moves: Moves, destination: Option<nat>)
    requires Sweeping(values, before, labels, tickets, seen, cursor, bounds) && cursor < |before|
    requires bounds.Contains(before[cursor].position)
    requires Cut(before, v, moves, cursor, destination) && (destination.Some? ==> destination.value >= cursor)
    ensures labels[cursor] < |values| && labels[cursor] !in seen && Within(moves, |tickets|)
    ensures Sweeping(values, v, Moved(labels, moves)[..|v|], Moved(tickets, moves), seen + {labels[cursor]}, cursor, bounds)
  {
    hide Moved, Places, Distinct, Covered, RemovedFrom;
    assert PlaceOk(values, before, labels, tickets, seen, cursor, bounds, cursor);
    var from := CutTables(before, v, moves, cursor, destination, labels, tickets);
    var kept, carried := Moved(labels, moves)[..|v|], Moved(tickets, moves);
    CoveredOn(values, labels, seen, cursor, kept, bounds);
    AheadPlaces(from, cursor, destination);
    var after := seen + {labels[cursor]};
    forall i | 0 <= i < |v| ensures PlaceOk(values, v, kept, carried, after, cursor, bounds, i) {
      assert PlaceOk(values, before, labels, tickets, seen, cursor, bounds, from[i]);
    }
  }

  lemma AheadPlaces(from: seq<nat>, index: nat, destination: Option<nat>)
    requires RemovedFrom(from, index, destination) && (destination.Some? ==> destination.value >= index)
    ensures index <= |from| - 1 && forall i :: 0 <= i < index ==> from[i] == i
    ensures forall i :: index <= i < |from| - 1 ==> from[i] > index
  {
  }

  /** Removing it when the last entry, unseen, goes to a place already passed: that entry gets a ticket. */
  lemma SweepDefers(values: Heap, before: Heap, v: Heap, labels: seq<nat>, tickets: seq<Option<nat>>, seen: set<nat>, cursor: nat,
                    bounds: TickBounds, moves: Moves, destination: nat, ticket: nat)
    requires Sweeping(values, before, labels, tickets, seen, cursor, bounds) && cursor < |before|
    requires bounds.Contains(before[cursor].position)
    requires Cut(before, v, moves, cursor, Some(destination)) && destination < cursor
    ensures labels[cursor] < |values| && labels[cursor] !in seen
    ensures Within(moves, |tickets|) && cursor < |v| && Moved(tickets, moves)[destination] == None
    ensures Sweeping(values, v, Moved(labels, moves)[..|v|], Moved(tickets, moves)[destination := Some(ticket)], seen + {labels[cursor]},
                     cursor + 1, bounds)
  {
    hide Moved, Places, Distinct, Covered, RemovedFrom;
    assert PlaceOk(values, before, labels, tickets, seen, cursor, bounds, cursor);
    var from := CutTables(before, v, moves, cursor, Some(destination), labels, tickets);
    PassedPlaces(from, cursor, destination);
    var kept, carried := Moved(labels, moves)[..|v|], Moved(tickets, moves)[destination := Some(ticket)];
    CoveredOn(values, labels, seen, cursor, kept, bounds);
    var after, next := seen + {labels[cursor]}, cursor + 1;
    forall i | 0 <= i < |v| ensures PlaceOk(values, v, kept, carried, after, next, bounds, i) {
      assert PlaceOk(values, before, labels, tickets, seen, cursor, bounds, from[i]);
    }
  }

  lemma PassedPlaces(from: seq<nat>, index: nat, destination: nat)
    requires RemovedFrom(from, index, Some(destination)) && destination < index
    ensures index < |from| - 1 && from[destination] == |from| - 1
    ensures forall i :: 0 <= i <= index && i != destination ==> from[i] < index
    ensures forall i :: index < i < |from| - 1 ==> from[i] == i
  {
  }

  // ----- the deferred entries -----

  /** Examining a deferred entry that stays. */
  lemma RevisitKeeps(values: Heap, v: Heap, labels: seq<nat>, tickets: seq<Option<nat>>, seen: set<nat>, bounds: TickBounds, position: nat)
    requires Sweeping(values, v, labels, tickets, seen, |v|, bounds) && position < |v| && tickets[position].Some?
    requires !bounds.Contains(v[position].position)
    ensures labels[position] < |values| && labels[position] !in seen
    ensures Sweeping(values, v, labels, tickets[position := None], seen + {labels[position]}, |v|, bounds)
  {
    hide Covered;
    CoveredBy(values, labels, seen, seen + {labels[position]}, bounds);
    assert PlaceOk(values, v, labels, tickets, seen, |v|, bounds, position);
    var after, left, end := seen + {labels[position]}, tickets[position := None], |v|;
    forall i | 0 <= i < end ensures PlaceOk(values, v, labels, left, after, end, bounds, i) {
      assert i != position ==> labels[i] != labels[position];
      assert PlaceOk(values, v, labels, tickets, seen, |v|, bounds, i);
    }
  }

  /** Removing a deferred entry, wherever the repair carries the others. */
  lemma RevisitRemoves(values: Heap, before: Heap, v: Heap, labels: seq<nat>, tickets: seq<Option<nat>>, seen: set<nat>, bounds: TickBounds,
                       position: nat, moves: Moves, destination: Option<nat>)
    requires Sweeping(values, before, labels, tickets, seen, |before|, bounds) && position < |before| && tickets[position].Some?
    requires bounds.Contains(before[position].position) && Cut(before, v, moves, position, destination)
    ensures labels[position] < |values| && labels[position] !in seen && Within(moves, |tickets|)
    ensures Sweeping(values, v, Moved(labels, moves)[..|v|], Moved(tickets[position := None], moves), seen + {labels[position]}, |v|, bounds)
  {
    hide Moved, Places, RemovedFrom, Distinct, Covered;
    assert PlaceOk(values, before, labels, tickets, seen, |before|, bounds, position);
    var from := CutTables(before, v, moves, position, destination, labels, tickets[position := None]);
    var kept, carried := Moved(labels, moves)[..|v|], Moved(tickets[position := None], moves);
    CoveredOn(values, labels, seen, position, kept, bounds);
    var after, end := seen + {labels[position]}, |v|;
    forall i | 0 <= i < end ensures PlaceOk(values, v, kept, carried, after, end, bounds, i) {
      assert PlaceOk(values, before, labels, tickets, seen, |before|, bounds, from[i]);
      assert from[i] != position;
    }
  }

  // ----- the whole -----

  /** Every entry was examined exactly once, and those outside the area were kept. */
  ghost predicate Swept(values: Heap, v: Heap, labels: seq<nat>, visited: seq<nat>, bounds: TickBounds) {
    && |labels| == |v| && Distinct(labels) && Distinct(visited)
    && (forall k :: k in visited <==> 0 <= k < |values|)
    && (forall i :: 0 <= i < |v| ==> labels[i] < |values| && v[i] == values[labels[i]])
    && (forall k :: 0 <= k < |values| ==> (k in labels <==> !bounds.Contains(values[k].position)))
  }

  /** The order of examination: everything seen, once. */
  ghost predicate Logged(visited: seq<nat>, seen: set<nat>, n: nat) {
    Distinct(visited) && (forall k :: k in visited <==> k in seen) && forall k :: k in seen ==> k < n
  }

  lemma LogNext(visited: seq<nat>, seen: set<nat>, n: nat, k: nat)
    requires Logged(visited, seen, n) && k < n && k !in seen
    ensures Logged(visited + [k], seen + {k}, n)
  {
  }

  lemma SweepEnds(values: Heap, v: Heap, labels: seq<nat>, tickets: seq<Option<nat>>, visited: seq<nat>, seen: set<nat>, bounds: TickBounds)
    requires Sweeping(values, v, labels, tickets, seen, |v|, bounds) && forall i :: 0 <= i < |tickets| ==> tickets[i] == None
    requires Logged(visited, seen, |values|)
    ensures Swept(values, v, labels, visited, bounds)
  {
    forall i | 0 <= i < |v| ensures labels[i] < |values| && v[i] == values[labels[i]] && labels[i] in seen && !bounds.Contains(v[i].position) {
      assert PlaceOk(values, v, labels, tickets, seen, |v|, bounds, i);
    }
  }

  lemma SweepFacts(values: Heap, v: Heap, labels: seq<nat>, tickets: seq<Option<nat>>, seen: set<nat>, cursor: nat, bounds: TickBounds)
    requires Sweeping(values, v, labels, tickets, seen, cursor, bounds)
    ensures |labels| == |v| <= |values| == |tickets| && cursor <= |v|
    ensures forall i :: 0 <= i < |tickets| && tickets[i].Some? ==> i < cursor
  {
  }

  /** The heap and what was taken from it. */
  ghost predicate Parted(values: Heap, v: Heap, gone: multiset<ScheduledTick>, bounds: TickBounds) {
    multiset(values) == multiset(v) + gone && forall t :: t in gone ==> bounds.Contains(t.position)
  }

  lemma PartedEnds(values: Heap, v: Heap, gone: multiset<ScheduledTick>, labels: seq<nat>, visited: seq<nat>, bounds: TickBounds)
    requires Parted(values, v, gone, bounds) && Swept(values, v, labels, visited, bounds)
    ensures multiset(v) == multiset(Outside(values, bounds)) && |v| <= |values|
  {
    forall i | 0 <= i < |v| ensures !bounds.Contains(v[i].position) {
      assert labels[i] in labels;
    }
    SplitIsOutside(values, v, gone, bounds);
    assert |multiset(values)| == |multiset(v)| + |gone|;
  }

  /**
   Removes every tick inside the area. No entry is skipped or examined twice, although each
   removal repairs the heap under the sweep; `visited` is the order of examination.
   */
  method RemoveInside(values: Heap, bounds: TickBounds) returns (v: Heap, removed: nat, ghost labels: seq<nat>, ghost visited: seq<nat>)
    requires IsHeap(values)
    ensures IsHeap(v) && removed + |v| == |values|
    ensures multiset(v) == multiset(Outside(values, bounds))
    ensures Swept(values, v, labels, visited, bounds)
  {
    hide Sweeping, Revisits.Linked, IsHeap, Swept, Logged, Parted;
    var revisits := new Revisits(|values|);
    ghost var seen, gone;
    v, labels, visited, seen, gone := Sweep(values, bounds, revisits);
    v, labels, visited, seen, gone := Revisit(values, v, bounds, revisits, labels, visited, seen, gone);
    NoTickets(revisits);
    SweepEnds(values, v, labels, revisits.tickets, visited, seen, bounds);
    PartedEnds(values, v, gone, labels, visited, bounds);
    removed := |values| - |v|;
  }

  lemma NoTickets(revisits: Revisits)
    requires revisits.Linked(|revisits.positions|)
    ensures forall i :: 0 <= i < |revisits.tickets| ==> revisits.tickets[i] == None
  {
  }

  method Sweep(values: Heap, bounds: TickBounds, revisits: Revisits)
      returns (v: Heap, ghost labels: seq<nat>, ghost visited: seq<nat>, ghost seen: set<nat>, ghost gone: multiset<ScheduledTick>)
    requires IsHeap(values) && revisits.Linked(0) && revisits.tickets == Unheld(|values|)
    modifies revisits
    ensures IsHeap(v) && revisits.Linked(0) && Parted(values, v, gone, bounds)
    ensures Sweeping(values, v, labels, revisits.tickets, seen, |v|, bounds) && Logged(visited, seen, |values|)
  {
    hide Sweeping, Revisits.Linked, Moved, Places, RemovedFrom, IsHeap, Logged;
    v, labels, visited, seen, gone := values, Ids(|values|), [], {}, multiset{};
    SweepStarts(values, bounds);
    LogStarts(|values|);
    assert multiset(values) == multiset(values) + multiset{};
    var cursor := 0;
    while cursor < |v|
      invariant cursor <= |v| && IsHeap(v) && revisits.Linked(0)
      invariant Sweeping(values, v, labels, revisits.tickets, seen, cursor, bounds) && Logged(visited, seen, |values|)
      invariant Parted(values, v, gone, bounds)
      decreases 2 * |v| - cursor
    {
      SweepFacts(values, v, labels, revisits.tickets, seen, cursor, bounds);
      ghost var current := labels[cursor];
      if !bounds.Contains(v[cursor].position) {
        SweepKeeps(values, v, labels, revisits.tickets, seen, cursor, bounds);
        cursor := cursor + 1;
      } else {
        ghost var before := v;
        var destination, moves;
        v, destination, moves := RemoveAt(v, cursor);
        gone := gone + multiset{before[cursor]};
        if destination.Some? && destination.value < cursor {
          SweepDefers(values, before, v, labels, revisits.tickets, seen, cursor, bounds, moves, destination.value, |revisits.positions|);
          revisits.Follow(moves, 0);
          revisits.Defer(destination.value, 0);
          cursor := cursor + 1;
        } else {
          SweepRemoves(values, before, v, labels, revisits.tickets, seen, cursor, bounds, moves, destination);
          revisits.Follow(moves, 0);
        }
        labels := Moved(labels, moves)[..|v|];
      }
      LogNext(visited, seen, |values|, current);
      visited, seen := visited + [current], seen + {current};
    }
  }

  lemma LogStarts(n: nat)
    ensures Logged([], {}, n)
  {
  }

  method Revisit(values: Heap, swept: Heap, bounds: TickBounds, revisits: Revisits, ghost before: seq<nat>, ghost early: seq<nat>,
                 ghost known: set<nat>, ghost taken: multiset<ScheduledTick>)
      returns (v: Heap, ghost labels: seq<nat>, ghost visited: seq<nat>, ghost seen: set<nat>, ghost gone: multiset<ScheduledTick>)
    requires IsHeap(swept) && revisits.Linked(0) && Parted(values, swept, taken, bounds)
    requires Sweeping(values, swept, before, revisits.tickets, known, |swept|, bounds) && Logged(early, known, |values|)
    modifies revisits
    ensures IsHeap(v) && revisits.Linked(|revisits.positions|) && Parted(values, v, gone, bounds)
    ensures Sweeping(values, v, labels, revisits.tickets, seen, |v|, bounds) && Logged(visited, seen, |values|)
  {
    hide Sweeping, Revisits.Linked, Moved, Places, RemovedFrom, IsHeap, Logged;
    v, labels, visited, seen, gone := swept, before, early, known, taken;
    var count := |revisits.positions|;
    for ticket := 0 to count
      invariant IsHeap(v) && revisits.Linked(ticket) && |revisits.positions| == count
      invariant Sweeping(values, v, labels, revisits.tickets, seen, |v|, bounds) && Logged(visited, seen, |values|)
      invariant Parted(values, v, gone, bounds)
    {
      SweepFacts(values, v, labels, revisits.tickets, seen, |v|, bounds);
      ghost var tickets := revisits.tickets;
      var position := revisits.Take(ticket);
      ghost var current := labels[position];
      if bounds.Contains(v[position].position) {
        ghost var whole := v;
        var destination, moves;
        v, destination, moves := RemoveAt(v, position);
        gone := gone + multiset{whole[position]};
        RevisitRemoves(values, whole, v, labels, tickets, seen, bounds, position, moves, destination);
        revisits.Follow(moves, ticket + 1);
        labels := Moved(labels, moves)[..|v|];
      } else {
        RevisitKeeps(values, v, labels, tickets, seen, bounds, position);
      }
      LogNext(visited, seen, |values|, current);
      visited, seen := visited + [current], seen + {current};
    }
  }
}
