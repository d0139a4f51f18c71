/**
 The per-chunk priority queue: a binary heap in an array, by trigger time, priority and
 sub-tick order. Each operation keeps the heap and is exact about the ticks it holds.
 */
module TickHeap {
  import opened TickMoves
  import opened TickTypes
  import opened World

  type Heap = seq<ScheduledTick>

  ghost predicate IsHeap(v: Heap) {
    forall i {:trigger v[i]} :: 1 <= i < |v| ==> Le(v[(i - 1) / 2], v[i])
  }

  /** The root precedes or ties with every queued tick. */
  lemma {:induction false} RootIsLeast(v: Heap, i: nat)
    requires IsHeap(v) && i < |v|
    ensures Le(v[0], v[i])
  {
    if i > 0 {
      RootIsLeast(v, (i - 1) / 2);
    }
  }

  /** The root has the earliest trigger time, and among those the first turn. */
  lemma RootIsEarliest(v: Heap, i: nat)
    requires IsHeap(v) && i < |v|
    ensures v[0].triggerTick <= v[i].triggerTick && (v[0].triggerTick == v[i].triggerTick ==> InTurn(v[0], v[i]))
  {
    hide Le;
    RootIsLeast(v, i);
    OrderMeans(v[0], v[i]);
  }

  /** A heap except that the entry at `k` may precede its ancestors. */
  ghost predicate Raising(v: Heap, k: nat) {
    && k < |v|
    && (forall i {:trigger v[i]} :: 1 <= i < |v| && i != k ==> Le(v[(i - 1) / 2], v[i]))
    && (forall i {:trigger v[i]} :: 1 <= i < |v| && k > 0 && (i - 1) / 2 == k ==> Le(v[(k - 1) / 2], v[i]))
  }

  /** A heap except around `k`, whose children still respect its parent. */
  ghost predicate Loose(v: Heap, k: nat) {
    && k < |v|
    && (forall i {:trigger v[i]} :: 1 <= i < |v| && i != k && (i - 1) / 2 != k ==> Le(v[(i - 1) / 2], v[i]))
    && (forall i {:trigger v[i]} :: 1 <= i < |v| && k > 0 && (i - 1) / 2 == k ==> Le(v[(k - 1) / 2], v[i]))
  }

  /** A heap except that the entry at `k` may follow its children. */
  ghost predicate Lowering(v: Heap, k: nat) {
    Loose(v, k) && (k > 0 ==> Le(v[(k - 1) / 2], v[k]))
  }

  lemma RaiseStep(v: Heap, k: nat)
    requires Raising(v, k) && k > 0 && Precedes(v[k], v[(k - 1) / 2])
    ensures Raising(Swap(v, k, (k - 1) / 2), (k - 1) / 2)
  {
    var p := (k - 1) / 2;
    var w := Swap(v, k, p);
    forall i {:trigger w[i]} | 1 <= i < |w| && i != p ensures Le(w[(i - 1) / 2], w[i]) {
      if i != k && (i - 1) / 2 == p {
        assert Le(v[p], v[i]);
      } else if i != k && (i - 1) / 2 == k {
        assert Le(v[p], v[i]);
      }
    }
    forall i {:trigger w[i]} | 1 <= i < |w| && p > 0 && (i - 1) / 2 == p ensures Le(w[(p - 1) / 2], w[i]) {
      assert Le(v[(p - 1) / 2], v[p]);
      if i != k {
        assert Le(v[p], v[i]);
      }
    }
  }

  /** Moves an entry up; the entries it passes move down, and nothing after its start moves. */
  method Raise(values: Heap, start: nat) returns (v: Heap, index: nat, moves: Moves)
    requires Raising(values, start)
    ensures Within(moves, |values|) && v == Moved(values, moves)
    ensures IsHeap(v) && multiset(v) == multiset(values) && |v| == |values|
    ensures index == start ==> v == values && moves == []
    ensures v[0] == values[start] || v[0] == values[0]
    ensures index <= start && RaisedFrom(Places(|values|, moves), start, index)
  {
    hide Moved, Places, RaisedFrom, Raising, IsHeap, Precedes;
    v, index, moves := values, start, [];
    RaisingPlace(values, start);
    NothingMoved(values, start);
    while index != 0
      invariant index <= start < |v| && Raising(v, index)
      invariant Within(moves, |values|) && v == Moved(values, moves) && v[index] == values[start]
      invariant index == start ==> v == values && moves == []
      invariant index != 0 ==> v[0] == values[0]
      invariant RaisedFrom(Places(|values|, moves), start, index)
    {
      var parent := (index - 1) / 2;
      if !Precedes(v[index], v[parent]) {
        break;
      }
      RaiseStep(v, index);
      MovedAppend(values, moves, index, parent);
      PlacesAppend(|values|, moves, index, parent);
      RaisedOn(Places(|values|, moves), start, index, parent);
      v := Swap(v, index, parent);
      moves := moves + [(index, parent)];
      index := parent;
    }
    RaiseEnds(v, index);
    MovedPermutes(values, moves);
    RaisedBefore(Places(|values|, moves), start, index);
  }

  lemma RaisingPlace(v: Heap, k: nat)
    requires Raising(v, k)
    ensures k < |v|
  {
  }

  lemma RaiseEnds(v: Heap, k: nat)
    requires Raising(v, k) && (k > 0 ==> !Precedes(v[k], v[(k - 1) / 2]))
    ensures IsHeap(v)
  {
  }

  lemma RaisedBefore(from: seq<nat>, start: nat, index: nat)
    requires RaisedFrom(from, start, index)
    ensures index <= start
  {
  }

  lemma NothingMoved(values: Heap, start: nat)
    requires start < |values|
    ensures Within([], |values|) && Moved(values, []) == values
    ensures RaisedFrom(Places(|values|, []), start, start) && LoweredFrom(Places(|values|, []), start, start)
  {
  }

  lemma RaisedOn(from: seq<nat>, start: nat, index: nat, parent: nat)
    requires RaisedFrom(from, start, index) && parent < index
    ensures RaisedFrom(Swap(from, index, parent), start, parent)
  {
  }

  lemma LoweredOn(from: seq<nat>, start: nat, index: nat, child: nat)
    requires LoweredFrom(from, start, index) && index < child < |from|
    ensures LoweredFrom(Swap(from, index, child), start, child)
  {
  }

  ghost predicate RaisedFrom(from: seq<nat>, start: nat, index: nat) {
    && index <= start < |from| && from[index] == start
    && (forall i :: 0 <= i <= start && i != index ==> from[i] < start)
    && (index == start ==> forall i :: 0 <= i < start ==> from[i] == i)
    && (forall i :: start < i < |from| ==> from[i] == i)
  }

  ghost predicate LoweredFrom(from: seq<nat>, start: nat, index: nat) {
    && start <= index < |from| && from[index] == start
    && (forall i :: 0 <= i < start ==> from[i] == i)
    && (forall i :: start <= i < |from| && i != index ==> from[i] > start)
  }

  lemma LowerStep(v: Heap, k: nat, child: nat)
    requires Loose(v, k)
    requires child == 2 * k + 1 || child == 2 * k + 2
    requires child < |v| && Precedes(v[child], v[k])
    requires forall i {:trigger v[i]} :: 2 * k + 1 <= i <= 2 * k + 2 && i < |v| ==> Le(v[child], v[i])
    ensures Lowering(Swap(v, k, child), child)
  {
    var w := Swap(v, k, child);
    forall i {:trigger w[i]} | 1 <= i < |w| && (i - 1) / 2 != child ensures Le(w[(i - 1) / 2], w[i]) {
      if (i - 1) / 2 == k && i != child {
        assert Le(v[child], v[i]);
      } else if i == k {
        assert Le(v[(k - 1) / 2], v[child]);
      }
    }
    forall i {:trigger w[i]} | 1 <= i < |w| && (i - 1) / 2 == child ensures Le(w[(child - 1) / 2], w[i]) {
      assert Le(v[child], v[i]);
    }
  }

  lemma ChildrenSettled(v: Heap, k: nat)
    requires Loose(v, k)
    requires forall i {:trigger v[i]} :: 2 * k + 1 <= i <= 2 * k + 2 && i < |v| ==> Le(v[k], v[i])
    ensures Raising(v, k)
    ensures Lowering(v, k) ==> IsHeap(v)
  {
  }

  /** Moves an entry down; nothing before its start moves. */
  method Lower(values: Heap, start: nat) returns (v: Heap, index: nat, moves: Moves)
    requires Loose(values, start)
    ensures Within(moves, |values|) && v == Moved(values, moves)
    ensures multiset(v) == multiset(values) && |v| == |values|
    ensures if index == start then v == values && moves == [] && Raising(v, start) else IsHeap(v)
    ensures start <= index < |v| && LoweredFrom(Places(|values|, moves), start, index)
  {
    hide *;
    v, index, moves := values, start, [];
    LoosePlace(values, start);
    NothingMoved(values, start);
    while index < |v| / 2
      invariant start <= index < |v| && Loose(v, index)
      invariant Within(moves, |values|) && v == Moved(values, moves)
      invariant if index == start then v == values && moves == [] else Lowering(v, index)
      invariant LoweredFrom(Places(|values|, moves), start, index)
      decreases |v| - index
    {
      var left := 2 * index + 1;
      var right := left + 1;
      var child := if right < |v| && Precedes(v[right], v[left]) then right else left;
      NearestChild(v, index, child);
      if !Precedes(v[child], v[index]) {
        LowerEnds(v, index, child);
        break;
      }
      LowerStep(v, index, child);
      LoweringIsLoose(Swap(v, index, child), child);
      MovedAppend(values, moves, index, child);
      PlacesAppend(|values|, moves, index, child);
      LoweredOn(Places(|values|, moves), start, index, child);
      v := Swap(v, index, child);
      moves := moves + [(index, child)];
      index := child;
    }
    if index >= |v| / 2 {
      ChildrenSettled(v, index);
    }
    MovedPermutes(values, moves);
  }

  lemma LoosePlace(v: Heap, k: nat)
    requires Loose(v, k)
    ensures k < |v|
  {
  }

  lemma LoweringIsLoose(v: Heap, k: nat)
    requires Lowering(v, k)
    ensures Loose(v, k)
  {
  }

  /** The chosen child precedes or ties with the other one. */
  lemma NearestChild(v: Heap, k: nat, child: nat)
    requires 2 * k + 1 < |v|
    requires child == if 2 * k + 2 < |v| && Precedes(v[2 * k + 2], v[2 * k + 1]) then 2 * k + 2 else 2 * k + 1
    ensures forall i {:trigger v[i]} :: 2 * k + 1 <= i <= 2 * k + 2 && i < |v| ==> Le(v[child], v[i])
  {
  }

  /** Lowering ends above children that do not precede. */
  lemma LowerEnds(v: Heap, k: nat, child: nat)
    requires Loose(v, k) && 2 * k + 1 <= child <= 2 * k + 2 && child < |v| && !Precedes(v[child], v[k])
    requires forall i {:trigger v[i]} :: 2 * k + 1 <= i <= 2 * k + 2 && i < |v| ==> Le(v[child], v[i])
    ensures Raising(v, k)
    ensures Lowering(v, k) ==> IsHeap(v)
  {
    ChildrenSettled(v, k);
  }

  /** The last entry moved into a removed entry's place. */
  function CutLast(values: Heap, index: nat): (v: Heap)
    requires index < |values|
    ensures |v| == |values| - 1
  {
    Swap(values, index, |values| - 1)[..|values| - 1]
  }

  lemma CutLastIsLoose(values: Heap, index: nat)
    requires IsHeap(values) && index < |values|
    ensures if index == |values| - 1 then IsHeap(CutLast(values, index)) else Loose(CutLast(values, index), index)
  {
    var v, last := CutLast(values, index), |values| - 1;
    assert forall i :: 0 <= i < last && i != index ==> v[i] == values[i];
    if index != last {
      forall i {:trigger v[i]} | 1 <= i < |v| && index > 0 && (i - 1) / 2 == index ensures Le(v[(index - 1) / 2], v[i]) {
        assert Le(values[index], values[i]) && Le(values[(index - 1) / 2], values[index]);
      }
    }
  }

  lemma CutLastCounts(values: Heap, index: nat)
    requires index < |values|
    ensures multiset(values) == multiset(CutLast(values, index)) + multiset{values[index]}
  {
    var swapped := Swap(values, index, |values| - 1);
    assert swapped == swapped[..|values| - 1] + [values[index]];
  }

  /**
   Where the entries of a heap come from after one was removed: the former last entry went to
   `destination`; if that is before the gap, everything up to the gap came from before it and
   the rest stayed, otherwise everything before the gap stayed.
   */
  ghost predicate RemovedFrom(from: seq<nat>, index: nat, destination: Option<nat>) {
    && index < |from| && from[|from| - 1] == index && (destination.None? <==> index == |from| - 1)
    && match destination
       case None => forall i :: 0 <= i < index ==> from[i] == i
       case Some(d) =>
         && d < |from| - 1 && from[d] == |from| - 1
         && if d < index then (forall i :: 0 <= i <= index && i != d ==> from[i] < index) && (forall i :: index < i < |from| - 1 ==> from[i] == i)
            else (forall i :: 0 <= i < index ==> from[i] == i) && (forall i :: index <= i < |from| - 1 ==> from[i] > index)
  }

  /** Removes the entry at `index` by moving the last one into its place; says every swap and where the last one landed. */
  method RemoveAt(values: Heap, index: nat) returns (v: Heap, destination: Option<nat>, moves: Moves)
    requires IsHeap(values) && index < |values|
    ensures IsHeap(v) && multiset(values) == multiset(v) + multiset{values[index]}
    ensures |v| == |values| - 1
    ensures Within(moves, |values|) && v == Moved(values, moves)[..|v|]
    ensures RemovedFrom(Places(|values|, moves), index, destination)
  {
    hide *;
    var last := |values| - 1;
    v := CutLast(values, index);
    CutLastIsLoose(values, index);
    CutLastCounts(values, index);
    if index == last {
      LastCut(values);
      destination, moves := None, [];
      return;
    }
    var place, more;
    v, place, more := Settle(v, index);
    CutFrom(|values|, index, place, more);
    CutMoved(values, index, more);
    destination, moves := Some(place), [(index, last)] + more;
  }

  /** Lowers the entry that filled the gap or, if it stays, raises it. */
  method Settle(values: Heap, index: nat) returns (v: Heap, place: nat, moves: Moves)
    requires Loose(values, index)
    ensures IsHeap(v) && multiset(v) == multiset(values) && |v| == |values|
    ensures Within(moves, |values|) && v == Moved(values, moves)
    ensures RaisedFrom(Places(|values|, moves), index, place) || LoweredFrom(Places(|values|, moves), index, place)
  {
    hide *;
    v, place, moves := Lower(values, index);
    if place == index {
      v, place, moves := Raise(v, index);
    }
  }

  lemma LastCut(values: Heap)
    requires values != []
    ensures Within([], |values|) && CutLast(values, |values| - 1) == Moved(values, [])[..|values| - 1]
    ensures RemovedFrom(Places(|values|, []), |values| - 1, None)
  {
  }

  lemma CutFrom(n: nat, index: nat, place: nat, more: Moves)
    requires index < n - 1 && Within(more, n - 1)
    requires RaisedFrom(Places(n - 1, more), index, place) || LoweredFrom(Places(n - 1, more), index, place)
    ensures Within([(index, n - 1)] + more, n) && RemovedFrom(Places(n, [(index, n - 1)] + more), index, Some(place))
  {
    hide Places;
    CutPlaces(n, index, more);
  }

  lemma CutMoved(values: Heap, index: nat, more: Moves)
    requires index < |values| - 1 && Within(more, |values| - 1)
    ensures Within([(index, |values| - 1)] + more, |values|)
    ensures Moved(CutLast(values, index), more) == Moved(values, [(index, |values| - 1)] + more)[..|values| - 1]
  {
    hide Moved;
    OneMove(values, index, |values| - 1);
    MovedConcat(values, [(index, |values| - 1)], more);
    MovedPrefix(Swap(values, index, |values| - 1), more, |values| - 1);
  }

  method Pop(values: Heap) returns (head: ScheduledTick, v: Heap)
    requires IsHeap(values) && values != []
    ensures head == values[0] && (forall t :: t in values ==> Le(head, t))
    ensures IsHeap(v) && multiset(values) == multiset(v) + multiset{head}
    ensures |v| == |values| - 1
  {
    head := values[0];
    var destination, moves;
    v, destination, moves := RemoveAt(values, 0);
    forall t | t in values ensures Le(head, t) {
      var i :| 0 <= i < |values| && values[i] == t;
      RootIsLeast(values, i);
    }
  }

  method Push(values: Heap, tick: ScheduledTick) returns (v: Heap)
    requires IsHeap(values)
    ensures IsHeap(v) && multiset(v) == multiset(values) + multiset{tick}
    ensures |v| == |values| + 1
    ensures v[0] == tick || (values != [] && v[0] == values[0])
  {
    var appended := values + [tick];
    var index, moves;
    v, index, moves := Raise(appended, |values|);
  }

  /** The ticks outside an area, in order. */
  function Outside(ticks: seq<ScheduledTick>, bounds: TickBounds): seq<ScheduledTick> {
    if ticks == [] then []
    else
      var rest := Outside(ticks[..|ticks| - 1], bounds);
      var last := ticks[|ticks| - 1];
      if bounds.Contains(last.position) then rest else rest + [last]
  }

  lemma {:induction false} OutsideCounts(ticks: seq<ScheduledTick>, bounds: TickBounds, t: ScheduledTick)
    ensures multiset(Outside(ticks, bounds))[t] ==
            if bounds.Contains(t.position) then 0 else multiset(ticks)[t]
    ensures |Outside(ticks, bounds)| <= |ticks|
  {
    if ticks != [] {
      OutsideCounts(ticks[..|ticks| - 1], bounds, t);
      assert ticks == ticks[..|ticks| - 1] + [ticks[|ticks| - 1]];
    }
  }

  lemma SplitIsOutside(values: Heap, kept: Heap, removed: multiset<ScheduledTick>, bounds: TickBounds)
    requires multiset(values) == multiset(kept) + removed
    requires forall t :: t in removed ==> bounds.Contains(t.position)
    requires forall i :: 0 <= i < |kept| ==> !bounds.Contains(kept[i].position)
    ensures multiset(kept) == multiset(Outside(values, bounds))
  {
    forall t: ScheduledTick ensures multiset(kept)[t] == multiset(Outside(values, bounds))[t] {
      OutsideCounts(values, bounds, t);
      if bounds.Contains(t.position) {
        assert t !in kept;
      } else {
        assert t !in removed;
      }
    }
  }
}
