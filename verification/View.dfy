/** Streaming the difference of two views, and the owner that applies it one acknowledged event at a time. */
module View {
  import opened World
  import opened ViewGeometry

  datatype ViewChange = Enter(chunk: ChunkAddress) | Leave(chunk: ChunkAddress)

  datatype ViewEvent = SetCenter(center: ChunkAddress) | Change(change: ViewChange)

  datatype Phase = Overlap | Leaving | Entering | Done

  // ----- what is still to be reported -----

  /** The change a cell makes in a phase, if any. */
  function ChangeAt(previous: TrackingView, next: TrackingView, phase: Phase, chunk: ChunkAddress): Option<ViewChange> {
    var was := phase != Entering && previous.Contains(chunk);
    var now := phase != Leaving && next.Contains(chunk);
    if was == now then None else if now then Some(Enter(chunk)) else Some(Leave(chunk))
  }

  ghost function ChangesAt(previous: TrackingView, next: TrackingView, phase: Phase, cells: seq<ChunkAddress>): seq<ViewChange> {
    if cells == [] then []
    else
      var change := ChangeAt(previous, next, phase, cells[0]);
      (if change.Some? then [change.value] else []) + ChangesAt(previous, next, phase, cells[1..])
  }

  ghost function CellsOf(scan: Option<Scan>): seq<ChunkAddress>
    requires scan.Some? ==> scan.value.Valid()
  {
    if scan.Some? then Cells(scan.value) else []
  }

  function ScanOf(view: TrackingView): Option<Scan> {
    if view.Positioned? then Some(NewScan(view.bounds)) else None
  }

  ghost predicate StateOk(previous: TrackingView, next: TrackingView, scan: Option<Scan>) {
    previous.Valid() && next.Valid() && (scan.Some? ==> scan.value.Valid())
  }

  /** Everything a difference in this state will report. */
  ghost function Remaining(previous: TrackingView, next: TrackingView, scan: Option<Scan>, phase: Phase): seq<ViewChange>
    requires StateOk(previous, next, scan)
  {
    ChangesAt(previous, next, phase, CellsOf(scan))
    + if phase == Leaving then ChangesAt(previous, next, Entering, CellsOf(ScanOf(next))) else []
  }

  /** Cells it will still visit. */
  ghost function CellsLeft(next: TrackingView, scan: Option<Scan>, phase: Phase): nat
    requires next.Valid() && (scan.Some? ==> scan.value.Valid())
  {
    |CellsOf(scan)| + if phase == Leaving then |CellsOf(ScanOf(next))| else 0
  }

  /** How a difference starts: nothing to do, one walk of the union, or two separate walks. */
  function Opening(previous: TrackingView, next: TrackingView): (Phase, Option<Scan>) {
    if previous == next then (Done, None)
    else if previous.Positioned? && next.Positioned? && previous.bounds.Intersects(next.bounds) then
      (Overlap, Some(NewScan(previous.bounds.Union(next.bounds))))
    else (Leaving, ScanOf(previous))
  }

  lemma OpeningOk(previous: TrackingView, next: TrackingView)
    requires previous.Valid() && next.Valid()
    ensures StateOk(previous, next, Opening(previous, next).1) && StateOk(previous, next, ScanOf(next)) && StateOk(previous, next, ScanOf(previous))
  {
  }

  /** All changes from one view to another, in the order they are reported. */
  ghost function AllChanges(previous: TrackingView, next: TrackingView): seq<ViewChange>
    requires previous.Valid() && next.Valid()
  {
    OpeningOk(previous, next);
    Remaining(previous, next, Opening(previous, next).1, Opening(previous, next).0)
  }

  // ----- what the changes amount to -----

  /** Each chunk once, and exactly the chunks whose tracking differs, in the right direction. */
  ghost predicate IsDifference(changes: seq<ViewChange>, previous: TrackingView, next: TrackingView) {
    && (forall i, j :: 0 <= i < j < |changes| ==> changes[i].chunk != changes[j].chunk)
    && (forall c :: Enter(c) in changes <==> next.Contains(c) && !previous.Contains(c))
    && (forall c :: Leave(c) in changes <==> previous.Contains(c) && !next.Contains(c))
  }

  lemma {:induction false} ChangesAreCells(previous: TrackingView, next: TrackingView, phase: Phase, cells: seq<ChunkAddress>)
    requires forall i, j :: 0 <= i < j < |cells| ==> cells[i] != cells[j]
    ensures var changes := ChangesAt(previous, next, phase, cells);
      && (forall change :: change in changes <==> change.chunk in cells && ChangeAt(previous, next, phase, change.chunk) == Some(change))
      && (forall i, j :: 0 <= i < j < |changes| ==> changes[i].chunk != changes[j].chunk)
  {
    hide ChangeAt;
    if cells != [] {
      ChangesAreCells(previous, next, phase, cells[1..]);
      ChangeIsOfCell(previous, next, phase, cells[0]);
      var change := ChangeAt(previous, next, phase, cells[0]);
      var rest := ChangesAt(previous, next, phase, cells[1..]);
      var changes := ChangesAt(previous, next, phase, cells);
      assert cells == [cells[0]] + cells[1..];
      assert changes == (if change.Some? then [change.value] else []) + rest;
      forall k | 0 <= k < |rest| ensures rest[k].chunk != cells[0] {
        assert rest[k] in rest;
      }
    }
  }

  lemma ChangeIsOfCell(previous: TrackingView, next: TrackingView, phase: Phase, chunk: ChunkAddress)
    ensures var change := ChangeAt(previous, next, phase, chunk); change.Some? ==> change.value.chunk == chunk
  {
  }

  /** The two walks of disjoint views, and the one walk of overlapping ones, report the same kind of difference. */
  lemma ChangesAreDifference(previous: TrackingView, next: TrackingView)
    requires previous.Valid() && next.Valid()
    ensures IsDifference(AllChanges(previous, next), previous, next)
  {
    OpeningOk(previous, next);
    forall c ensures InBounds(previous, c) && InBounds(next, c) {
      BoundsHold(previous, c);
      BoundsHold(next, c);
    }
    if previous == next {
    } else if Opening(previous, next).0 == Overlap {
      OverlapDifference(previous, next);
    } else {
      DisjointDifference(previous, next);
    }
  }

  predicate InBounds(view: TrackingView, chunk: ChunkAddress) {
    view.Contains(chunk) ==> view.Positioned? && view.bounds.Has(chunk)
  }

  lemma BoundsHold(view: TrackingView, chunk: ChunkAddress)
    requires view.Valid()
    ensures InBounds(view, chunk)
  {
    if view.Positioned? {
      ContainsIsDistance(view, chunk);
    }
  }

  lemma OverlapDifference(previous: TrackingView, next: TrackingView)
    requires previous.Valid() && next.Valid() && Opening(previous, next).0 == Overlap
    requires forall c :: InBounds(previous, c) && InBounds(next, c)
    ensures IsDifference(AllChanges(previous, next), previous, next)
  {
    hide ChangesAt, Cells, IsWithinDistance;
    var union := previous.bounds.Union(next.bounds);
    WholeScan(union);
    ChangesAreCells(previous, next, Overlap, Cells(NewScan(union)));
    assert AllChanges(previous, next) == ChangesAt(previous, next, Overlap, Cells(NewScan(union)));
    forall c ensures (previous.Contains(c) || next.Contains(c)) ==> union.Has(c) {
      assert InBounds(previous, c) && InBounds(next, c);
    }
  }

  /** A view's own cells: those it contains are all there. */
  lemma ScanCovers(view: TrackingView)
    requires view.Valid() && forall c :: InBounds(view, c)
    ensures StateOk(view, view, ScanOf(view))
    ensures forall c :: view.Contains(c) ==> c in CellsOf(ScanOf(view))
    ensures forall c :: c in CellsOf(ScanOf(view)) ==> view.Positioned? && view.bounds.Has(c)
    ensures forall i, j :: 0 <= i < j < |CellsOf(ScanOf(view))| ==> CellsOf(ScanOf(view))[i] != CellsOf(ScanOf(view))[j]
  {
    hide IsWithinDistance, Cells;
    if view.Positioned? {
      WholeScan(view.bounds);
      forall c | view.Contains(c) ensures c in CellsOf(ScanOf(view)) {
        assert InBounds(view, c);
      }
    }
  }

  lemma DisjointDifference(previous: TrackingView, next: TrackingView)
    requires previous.Valid() && next.Valid() && Opening(previous, next).0 == Leaving
    requires forall c :: InBounds(previous, c) && InBounds(next, c)
    ensures IsDifference(AllChanges(previous, next), previous, next)
  {
    hide ChangesAt, Cells, IsWithinDistance;
    ScanCovers(previous);
    ScanCovers(next);
    var leaving, entering := CellsOf(ScanOf(previous)), CellsOf(ScanOf(next));
    ChangesAreCells(previous, next, Leaving, leaving);
    ChangesAreCells(previous, next, Entering, entering);
    var left, entered := ChangesAt(previous, next, Leaving, leaving), ChangesAt(previous, next, Entering, entering);
    assert AllChanges(previous, next) == left + entered;
    forall c ensures !(previous.Contains(c) && next.Contains(c)) {
      assert InBounds(previous, c) && InBounds(next, c);
    }
    forall i, j | 0 <= i < |left| && 0 <= j < |entered| ensures left[i].chunk != entered[j].chunk {
      assert left[i] in left && entered[j] in entered;
    }
  }

  // ----- applying changes to a set -----

  function Applied(changes: seq<ViewChange>, tracked: set<ChunkAddress>): set<ChunkAddress> {
    if changes == [] then tracked else Applied(changes[1..], ApplyChange(changes[0], tracked))
  }

  function ApplyChange(change: ViewChange, tracked: set<ChunkAddress>): set<ChunkAddress> {
    match change
    case Enter(c) => tracked + {c}
    case Leave(c) => tracked - {c}
  }

  ghost predicate IsTrackedBy(tracked: set<ChunkAddress>, view: TrackingView) {
    forall c :: c in tracked <==> view.Contains(c)
  }

  lemma {:induction false} AppliedMembers(changes: seq<ViewChange>, tracked: set<ChunkAddress>, c: ChunkAddress)
    requires forall i, j :: 0 <= i < j < |changes| ==> changes[i].chunk != changes[j].chunk
    ensures c in Applied(changes, tracked) <==> Enter(c) in changes || (c in tracked && Leave(c) !in changes)
    decreases |changes|
  {
    if changes != [] {
      var rest := changes[1..];
      AppliedMembers(rest, ApplyChange(changes[0], tracked), c);
      assert changes == [changes[0]] + rest;
      if changes[0].chunk == c {
        forall k | 0 <= k < |rest| ensures rest[k].chunk != c {
          assert rest[k] == changes[k + 1];
        }
      }
    }
  }

  /** Draining the difference turns the old tracked set into the new one. */
  lemma DrainingMovesView(previous: TrackingView, next: TrackingView, tracked: set<ChunkAddress>)
    requires previous.Valid() && next.Valid() && IsTrackedBy(tracked, previous)
    ensures IsTrackedBy(Applied(AllChanges(previous, next), tracked), next)
  {
    hide AllChanges, Applied;
    ChangesAreDifference(previous, next);
    var changes := AllChanges(previous, next);
    forall c ensures c in Applied(changes, tracked) <==> next.Contains(c) {
      AppliedMembers(changes, tracked, c);
    }
  }

  /** Cells visited: at most 133 by 133 when bounds overlap, and two squares of 67 otherwise. */
  lemma VisitedBound(previous: TrackingView, next: TrackingView)
    requires previous.Valid() && next.Valid()
    ensures StateOk(previous, next, Opening(previous, next).1)
    ensures var (phase, scan) := Opening(previous, next);
      CellsLeft(next, scan, phase) <= if phase == Done then 0 else if phase == Overlap then 133 * 133 else 2 * 67 * 67
  {
    hide Cells, Area;
    OpeningOk(previous, next);
    if previous.Positioned? {
      SquareCells(previous);
    }
    if next.Positioned? {
      SquareCells(next);
    }
    if Opening(previous, next).0 == Overlap {
      var union := previous.bounds.Union(next.bounds);
      WholeScan(union);
      AreaBound(union.Width(), union.Height(), 133);
    }
  }

  lemma SquareCells(view: TrackingView)
    requires view.Valid() && view.Positioned?
    ensures NewScan(view.bounds).Valid() && |Cells(NewScan(view.bounds))| <= 67 * 67
  {
    hide Cells, Area;
    WholeScan(view.bounds);
    AreaBound(view.bounds.Width(), view.bounds.Height(), 67);
  }

  lemma AreaBound(width: int, height: int, side: nat)
    requires 0 <= width <= side && 0 <= height <= side
    ensures Area(width, height) <= side * side
  {
    assert width * height <= side * height <= side * side;
  }

  // ----- the stream -----

  /** Streams the difference with constant storage. */
  class ViewDifference {
    const previous: TrackingView
    const next: TrackingView
    var scan: Option<Scan>
    var phase: Phase
    var visited: nat

    constructor (previous: TrackingView, next: TrackingView)
      requires previous.Valid() && next.Valid()
      ensures this.previous == previous && this.next == next && Valid() && Rest() == AllChanges(previous, next)
      ensures visited == 0 && visited + CellsLeft(next, scan, phase) <= if phase == Overlap then 133 * 133 else 2 * 67 * 67
    {
      OpeningOk(previous, next);
      VisitedBound(previous, next);
      this.previous, this.next, visited := previous, next, 0;
      phase, scan := Opening(previous, next).0, Opening(previous, next).1;
    }

    ghost predicate Valid() reads `scan {
      StateOk(previous, next, scan)
    }

    ghost function Rest(): seq<ViewChange>
      requires Valid()
      reads `scan, `phase
    {
      Remaining(previous, next, scan, phase)
    }

    /** The next change, skipping cells that do not change; once done, done for good. */
    method Next() returns (r: Option<ViewChange>)
      requires Valid()
      modifies this
      ensures Valid()
      ensures old(Rest()) == [] ==> r == None && Rest() == [] && phase == Done
      ensures old(Rest()) != [] ==> r == Some(old(Rest())[0]) && Rest() == old(Rest())[1..]
      ensures visited + CellsLeft(next, scan, phase) == old(visited + CellsLeft(next, scan, phase))
    {
      hide Remaining, CellsLeft, CellsOf, Cells, TrackingView.Contains, TrackingView.Valid;
      ghost var want := Rest();
      ghost var total := visited + CellsLeft(next, scan, phase);
      while true
        invariant Valid() && Rest() == want && visited + CellsLeft(next, scan, phase) == total
        decreases phase == Leaving, |CellsOf(scan)|
      {
        var chunk: Option<ChunkAddress> := None;
        StateFacts(previous, next, scan);
        if scan.Some? {
          var cell, rest := ViewGeometry.Next(scan.value);
          CellStep(previous, next, scan.value, rest, cell, phase);
          chunk, scan := cell, Some(rest);
        }
        if chunk.Some? {
          visited := visited + 1;
          var was := phase != Entering && previous.Contains(chunk.value);
          var now := phase != Leaving && next.Contains(chunk.value);
          if was != now {
            r := Some(if now then Enter(chunk.value) else Leave(chunk.value));
            return;
          }
        } else {
          WalkEnds(previous, next, scan, phase);
          if phase == Leaving {
            phase, scan := Entering, ScanOf(next);
          } else {
            phase, scan := Done, None;
            return None;
          }
        }
      }
    }
  }

  lemma StateFacts(previous: TrackingView, next: TrackingView, scan: Option<Scan>)
    requires StateOk(previous, next, scan)
    ensures previous.Valid() && next.Valid() && (scan.Some? ==> scan.value.Valid())
    ensures scan.None? ==> CellsOf(scan) == []
  {
  }

  /** Taking a cell takes its change, if any, off the front. */
  lemma CellStep(previous: TrackingView, next: TrackingView, scan: Scan, rest: Scan, cell: Option<ChunkAddress>, phase: Phase)
    requires StateOk(previous, next, Some(scan)) && rest.Valid()
    requires cell.None? ==> Cells(scan) == [] && rest == scan
    requires cell.Some? ==> Cells(scan) == [cell.value] + Cells(rest)
    ensures StateOk(previous, next, Some(rest)) && (cell.None? ==> CellsOf(Some(scan)) == [])
    ensures cell.Some? ==>
      var was, now := phase != Entering && previous.Contains(cell.value), phase != Leaving && next.Contains(cell.value);
      && Remaining(previous, next, Some(scan), phase)
           == (if was == now then [] else [if now then Enter(cell.value) else Leave(cell.value)]) + Remaining(previous, next, Some(rest), phase)
      && CellsLeft(next, Some(scan), phase) == 1 + CellsLeft(next, Some(rest), phase)
      && |CellsOf(Some(rest))| < |CellsOf(Some(scan))|
  {
    hide Cells, ChangesAt, Remaining, CellsLeft, Later, TrackingView.Contains, TrackingView.Valid, ScanOf;
    if cell.Some? {
      FirstChange(previous, next, phase, cell.value, Cells(rest));
      LaterCells(previous, next, scan, rest, cell.value, phase);
    }
  }

  ghost function Later(previous: TrackingView, next: TrackingView, phase: Phase): seq<ViewChange>
    requires next.Valid()
  {
    if phase == Leaving then ChangesAt(previous, next, Entering, CellsOf(ScanOf(next))) else []
  }

  lemma LaterCells(previous: TrackingView, next: TrackingView, scan: Scan, rest: Scan, cell: ChunkAddress, phase: Phase)
    requires StateOk(previous, next, Some(scan)) && rest.Valid() && Cells(scan) == [cell] + Cells(rest)
    ensures Remaining(previous, next, Some(scan), phase) == ChangesAt(previous, next, phase, [cell] + Cells(rest)) + Later(previous, next, phase)
    ensures Remaining(previous, next, Some(rest), phase) == ChangesAt(previous, next, phase, Cells(rest)) + Later(previous, next, phase)
    ensures CellsLeft(next, Some(scan), phase) == 1 + CellsLeft(next, Some(rest), phase)
    ensures |CellsOf(Some(rest))| < |CellsOf(Some(scan))|
  {
    hide Cells, ChangesAt, TrackingView.Contains, TrackingView.Valid, ScanOf;
  }

  /** When a walk is over, leaving gives way to entering, and anything else is the end. */
  lemma WalkEnds(previous: TrackingView, next: TrackingView, scan: Option<Scan>, phase: Phase)
    requires StateOk(previous, next, scan) && CellsOf(scan) == []
    ensures StateOk(previous, next, ScanOf(next)) && StateOk(previous, next, None)
    ensures phase == Leaving ==>
      && Remaining(previous, next, scan, phase) == Remaining(previous, next, ScanOf(next), Entering)
      && CellsLeft(next, scan, phase) == CellsLeft(next, ScanOf(next), Entering)
    ensures phase != Leaving ==>
      && Remaining(previous, next, scan, phase) == [] == Remaining(previous, next, None, Done)
      && CellsLeft(next, scan, phase) == 0 == CellsLeft(next, None, Done)
  {
    hide Cells;
    OpeningOk(previous, next);
  }

  lemma FirstChange(previous: TrackingView, next: TrackingView, phase: Phase, cell: ChunkAddress, cells: seq<ChunkAddress>)
    ensures var was, now := phase != Entering && previous.Contains(cell), phase != Leaving && next.Contains(cell);
      ChangesAt(previous, next, phase, [cell] + cells)
        == (if was == now then [] else [if now then Enter(cell) else Leave(cell)]) + ChangesAt(previous, next, phase, cells)
  {
    hide TrackingView.Contains;
    assert ([cell] + cells)[1..] == cells;
  }

  // ----- the owner -----

  function Wrapped(changes: seq<ViewChange>): (r: seq<ViewEvent>)
    ensures |r| == |changes| && forall i :: 0 <= i < |r| ==> r[i] == Change(changes[i])
  {
    seq(|changes|, i requires 0 <= i < |changes| => Change(changes[i]))
  }

  function ApplyEvent(event: ViewEvent, tracked: set<ChunkAddress>): set<ChunkAddress> {
    if event.Change? then ApplyChange(event.change, tracked) else tracked
  }

  function AppliedEvents(events: seq<ViewEvent>, tracked: set<ChunkAddress>): set<ChunkAddress> {
    if events == [] then tracked else AppliedEvents(events[1..], ApplyEvent(events[0], tracked))
  }

  lemma {:induction false} WrappedApplied(changes: seq<ViewChange>, tracked: set<ChunkAddress>)
    ensures AppliedEvents(Wrapped(changes), tracked) == Applied(changes, tracked)
    decreases |changes|
  {
    if changes != [] {
      WrappedApplied(changes[1..], ApplyChange(changes[0], tracked));
      assert Wrapped(changes)[1..] == Wrapped(changes[1..]);
    }
  }

  /** The events of an update: a new center first, then the changes. */
  ghost function AllEvents(previous: TrackingView, next: TrackingView): seq<ViewEvent>
    requires previous.Valid() && next.Valid()
  {
    (if next.Positioned? && next.Center() != previous.Center() then [SetCenter(next.center)] else [])
    + Wrapped(AllChanges(previous, next))
  }

  /** A new center is announced first, and then each chunk gained or lost exactly once. */
  lemma EventsMean(previous: TrackingView, next: TrackingView)
    requires previous.Valid() && next.Valid()
    ensures var events := AllEvents(previous, next);
      && (forall i :: 0 <= i < |events| && events[i].SetCenter? ==> i == 0)
      && (events != [] && events[0].SetCenter? <==> next.Positioned? && (previous.Empty? || previous.center != next.center))
      && (events != [] && events[0].SetCenter? ==> events[0].center == next.center)
      && (forall i, j :: 0 <= i < j < |events| && events[i].Change? && events[j].Change? ==> events[i].change.chunk != events[j].change.chunk)
      && (forall c :: Change(Enter(c)) in events <==> next.Contains(c) && !previous.Contains(c))
      && (forall c :: Change(Leave(c)) in events <==> previous.Contains(c) && !next.Contains(c))
  {
    hide AllChanges, TrackingView.Contains, TrackingView.Valid;
    ChangesAreDifference(previous, next);
    var changes, events := AllChanges(previous, next), AllEvents(previous, next);
    var first := |events| - |changes|;
    forall i | first <= i < |events| ensures events[i] == Change(changes[i - first]) {
    }
    forall change ensures Change(change) in events <==> change in changes {
      if change in changes {
        var i :| 0 <= i < |changes| && changes[i] == change;
        assert events[i + first] == Change(change);
      }
    }
  }

  lemma EventsMoveView(previous: TrackingView, next: TrackingView, tracked: set<ChunkAddress>)
    requires previous.Valid() && next.Valid() && IsTrackedBy(tracked, previous)
    ensures IsTrackedBy(AppliedEvents(AllEvents(previous, next), tracked), next)
  {
    hide AllChanges, Applied, IsTrackedBy;
    DrainingMovesView(previous, next, tracked);
    var changes := AllChanges(previous, next);
    WrappedApplied(changes, tracked);
    var events := AllEvents(previous, next);
    if next.Positioned? && next.Center() != previous.Center() {
      assert events[1..] == Wrapped(changes);
    } else {
      assert events == Wrapped(changes);
    }
  }

  datatype Transition = Transition(next: TrackingView, changes: ViewDifference, event: Option<ViewEvent>)

  /**
   One player's tracking. `tracked` is what acknowledging the events has made of the outside
   world; it catches up with the view whenever no update is active.
   */
  class PlayerView {
    var current: TrackingView
    var transition: Option<Transition>
    ghost var tracked: set<ChunkAddress>

    constructor ()
      ensures Valid() && current == Empty && transition.None?
    {
      current, transition, tracked := Empty, None, {};
    }

    ghost function Changing(): set<object>
      reads `transition
    {
      if transition.Some? then {transition.value.changes} else {}
    }

    ghost predicate Valid()
      reads this, Changing()
    {
      && current.Valid()
      && (transition.None? ==> IsTrackedBy(tracked, current))
      && (transition.Some? ==>
            && transition.value.next.Valid() && transition.value.changes.Valid()
            && (transition.value.event.None? ==> transition.value.changes.Rest() == [])
            && IsTrackedBy(AppliedEvents(Events(), tracked), transition.value.next))
    }

    /** Events of the active update not yet acknowledged. */
    ghost function Events(): seq<ViewEvent>
      requires transition.Some? ==> transition.value.changes.Valid()
      reads this, if transition.Some? then {transition.value.changes} else {}
    {
      if transition.None? || transition.value.event.None? then []
      else [transition.value.event.value] + Wrapped(transition.value.changes.Rest())
    }

    method BeginUpdate(next: TrackingView) returns (r: Result<(), ViewError>)
      requires Valid() && next.Valid()
      modifies `transition
      ensures Valid() && current == old(current)
      ensures old(transition).Some? ==> r == Err(UpdateActive) && transition == old(transition)
      ensures old(transition).None? ==>
        r == Ok(()) && transition.Some? && transition.value.next == next && fresh(transition.value.changes)
        && Events() == AllEvents(current, next)
    {
      hide AllChanges, AppliedEvents, IsTrackedBy, ViewDifference.Rest;
      if transition.Some? {
        return Err(UpdateActive);
      }
      EventsMoveView(current, next, tracked);
      var changes := new ViewDifference(current, next);
      ghost var all := changes.Rest();
      var event: Option<ViewEvent>;
      if next.Positioned? && next.Center() != current.Center() {
        event := Some(SetCenter(next.center));
      } else {
        var first := changes.Next();
        event := if first.Some? then Some(Change(first.value)) else None;
        assert first.Some? ==> Wrapped(all) == [Change(all[0])] + Wrapped(all[1..]);
      }
      transition := Some(Transition(next, changes, event));
      assert Events() == AllEvents(current, next);
      r := Ok(());
    }

    /** Repeated reads return the same event. */
    method PendingEvent() returns (r: Option<ViewEvent>)
      requires Valid()
      ensures r == if Events() == [] then None else Some(Events()[0])
    {
      r := if transition.Some? then transition.value.event else None;
    }

    /** The pending event took effect outside; the next one is pending. */
    method AcknowledgeEvent() returns (r: Result<(), ViewError>)
      requires Valid()
      modifies `transition, `tracked, Changing()
      ensures Valid() && current == old(current) && transition.Some? == old(transition).Some?
      ensures old(transition).None? ==> r == Err(NoUpdate) && tracked == old(tracked)
      ensures old(transition).Some? ==> transition.value.next == old(transition).value.next && transition.value.changes == old(transition).value.changes
      ensures old(transition).Some? && old(Events()) == [] ==> r == Err(NoEvent) && Events() == [] && tracked == old(tracked)
      ensures old(transition).Some? && old(Events()) != [] ==>
        r == Ok(()) && Events() == old(Events())[1..] && tracked == ApplyEvent(old(Events())[0], old(tracked))
    {
      hide IsTrackedBy, ViewDifference.Rest, TrackingView.Valid, ApplyEvent, ViewDifference.Valid;
      if transition.None? {
        return Err(NoUpdate);
      }
      var active := transition.value;
      if active.event.None? {
        return Err(NoEvent);
      }
      ghost var before := Events();
      ghost var rest := active.changes.Rest();
      var following := active.changes.Next();
      transition := Some(active.(event := if following.Some? then Some(Change(following.value)) else None));
      tracked := ApplyEvent(active.event.value, tracked);
      assert following.Some? ==> Wrapped(rest) == [Change(rest[0])] + Wrapped(rest[1..]);
      assert Events() == before[1..];
      r := Ok(());
    }

    /** Only a drained update takes effect; then the outside world tracks exactly the new view. */
    method FinishUpdate() returns (r: Result<(), ViewError>)
      requires Valid()
      modifies `current, `transition
      ensures Valid()
      ensures old(transition).None? ==> r == Err(NoUpdate) && current == old(current) && transition == old(transition)
      ensures old(transition).Some? && old(Events()) != [] ==> r == Err(UnconsumedEvents) && current == old(current) && transition == old(transition)
      ensures old(transition).Some? && old(Events()) == [] ==>
        r == Ok(()) && transition.None? && current == old(transition).value.next && IsTrackedBy(tracked, current)
    {
      hide IsTrackedBy, ViewDifference.Rest;
      if transition.None? {
        return Err(NoUpdate);
      }
      if transition.value.event.Some? {
        return Err(UnconsumedEvents);
      }
      current, transition := transition.value.next, None;
      r := Ok(());
    }
  }
}
