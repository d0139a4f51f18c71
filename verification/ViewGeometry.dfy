/** Which chunks a player tracks: the wrapping distance test, positioned views and row-major scans. */
module ViewGeometry {
  import opened World

  const MIN_VIEW_DISTANCE: nat := 2
  const MAX_VIEW_DISTANCE: nat := 32

  type ViewDistance = d: int | MIN_VIEW_DISTANCE <= d <= MAX_VIEW_DISTANCE witness MIN_VIEW_DISTANCE

  function Clamp(value: int, low: int, high: int): int
    requires low <= high
  {
    if value < low then low else if value > high then high else value
  }

  /** A player sees no further than either side allows, and never less than the minimum. */
  function Effective(server: ViewDistance, requested: i32): (r: ViewDistance)
    ensures r <= server && (MIN_VIEW_DISTANCE <= requested <= server ==> r == requested)
    ensures (requested < 2 ==> r == 2) && (requested > server ==> r == server)
  {
    Clamp(requested, MIN_VIEW_DISTANCE, server)
  }

  // ----- distance -----

  /** Wrapping difference, wrapping absolute value, wrapping border, then no less than zero. */
  function Axis(value: i32, origin: i32, border: i32): (r: nat)
    ensures r <= 0x7fff_ffff
  {
    var difference: int := WrapI32(value - origin);
    var absolute := WrapI32(if difference < 0 then -difference else difference);
    var inner := WrapI32(absolute - border);
    if inner < 0 then 0 else inner
  }

  function Square(x: int): nat {
    if x < 0 then (-x) * (-x) else x * x
  }

  predicate IsWithinDistance(center: ChunkAddress, distance: ViewDistance, chunk: ChunkAddress, includeNeighbors: bool) {
    var border := if includeNeighbors then 2 else 1;
    Square(Axis(chunk.x, center.x, border)) + Square(Axis(chunk.z, center.z, border)) < Square(distance)
  }

  /** The sum of squares stays inside a signed 64-bit word. */
  lemma DistanceNeverOverflows(center: ChunkAddress, chunk: ChunkAddress, includeNeighbors: bool)
    ensures var border := if includeNeighbors then 2 else 1;
      0 <= Square(Axis(chunk.x, center.x, border)) + Square(Axis(chunk.z, center.z, border)) < TWO_63
  {
    hide Axis;
    var border := if includeNeighbors then 2 else 1;
    var x, z := Axis(chunk.x, center.x, border), Axis(chunk.z, center.z, border);
    SquareMonotone(x, 0x7fff_ffff);
    SquareMonotone(z, 0x7fff_ffff);
    assert Square(0x7fff_ffff) == 0x7fff_ffff * 0x7fff_ffff;
  }

  lemma {:induction false} SquareMonotone(a: nat, b: nat)
    ensures a <= b ==> Square(a) <= Square(b)
    ensures a < b ==> Square(a) < Square(b)
  {
    if a < b {
      assert b * b - a * a == (b - a) * (b + a);
      assert (b - a) * (b + a) > 0;
    }
  }

  /** Distance along one axis of the plane, beyond a border. */
  function Beyond(value: int, origin: int, border: nat): nat {
    var d := if value < origin then origin - value else value - origin;
    if d < border then 0 else d - border
  }

  /** The wrapped axis is small exactly when the plane's is, if nothing near the origin wraps. */
  lemma AxisIsBeyond(value: i32, origin: i32, border: i32, radius: nat)
    requires 1 <= border <= 2 && radius <= MAX_VIEW_DISTANCE
    requires I32_MIN <= origin - radius - 1 && origin + radius + 1 <= I32_MAX
    ensures Axis(value, origin, border) < radius <==> Beyond(value, origin, border) < radius
    ensures Axis(value, origin, border) < radius ==> Axis(value, origin, border) == Beyond(value, origin, border)
    ensures Axis(value, origin, border) < radius ==> origin - radius - 1 <= value <= origin + radius + 1
  {
    hide WrapI32;
    WrapTurn(value - origin);
    var difference: int := WrapI32(value - origin);
    var absolute := if difference < 0 then -difference else difference;
    WrapTurn(absolute);
    WrapTurn(WrapI32(absolute) - border);
  }

  /** Within one turn, wrapping adds or takes away at most one turn. */
  lemma WrapTurn(x: int)
    requires -TWO_32 < x < TWO_32
    ensures WrapI32(x) == if x >= TWO_31 then x - TWO_32 else if x < -TWO_31 then x + TWO_32 else x
  {
  }

  // ----- views -----

  datatype Bounds = Bounds(min: ChunkAddress, max: ChunkAddress) {
    predicate Valid() {
      min.x <= max.x && min.z <= max.z && max.x < I32_MAX && max.z < I32_MAX
    }

    predicate Has(chunk: ChunkAddress) {
      min.x <= chunk.x <= max.x && min.z <= chunk.z <= max.z
    }

    predicate Intersects(other: Bounds) {
      min.x <= other.max.x && other.min.x <= max.x && min.z <= other.max.z && other.min.z <= max.z
    }

    function Union(other: Bounds): Bounds {
      Bounds(ChunkAddress(Min(min.x, other.min.x), Min(min.z, other.min.z)), ChunkAddress(Max(max.x, other.max.x), Max(max.z, other.max.z)))
    }

    function Width(): int {
      max.x - min.x + 1
    }

    function Height(): int {
      max.z - min.z + 1
    }
  }

  function Min(a: i32, b: i32): i32 {
    if a < b then a else b
  }

  function Max(a: i32, b: i32): i32 {
    if a < b then b else a
  }

  datatype ViewError = CoordinateBounds | UpdateActive | NoUpdate | NoEvent | UnconsumedEvents

  datatype TrackingView = Empty | Positioned(center: ChunkAddress, distance: ViewDistance, bounds: Bounds) {
    /** Bounds reach one chunk past the distance on every side, and no coordinate wraps. */
    predicate Valid() {
      Positioned? ==>
        && bounds.min.x == center.x - distance - 1 && bounds.min.z == center.z - distance - 1
        && bounds.max.x == center.x + distance + 1 && bounds.max.z == center.z + distance + 1
        && bounds.max.x < I32_MAX && bounds.max.z < I32_MAX
    }

    predicate Contains(chunk: ChunkAddress) {
      Positioned? && IsWithinDistance(center, distance, chunk, true)
    }

    function Center(): Option<ChunkAddress> {
      if Positioned? then Some(center) else None
    }
  }

  /** Admits a view unless its scan would leave the coordinates, or step past the last one. */
  function NewView(center: ChunkAddress, distance: ViewDistance): (r: Result<TrackingView, ViewError>)
    ensures r.Ok? ==> r.value.Valid() && r.value.Positioned? && r.value.center == center && r.value.distance == distance
    ensures r.Ok? <==> I32_MIN <= center.x - distance - 1 && center.x + distance + 1 < I32_MAX
                       && I32_MIN <= center.z - distance - 1 && center.z + distance + 1 < I32_MAX
    ensures r.Err? ==> r.error == CoordinateBounds
  {
    var extent := distance + 1;
    if center.x - extent < I32_MIN || center.z - extent < I32_MIN || center.x + extent >= I32_MAX || center.z + extent >= I32_MAX then
      Err(CoordinateBounds)
    else
      Ok(Positioned(center, distance, Bounds(ChunkAddress(center.x - extent, center.z - extent), ChunkAddress(center.x + extent, center.z + extent))))
  }

  /** A positioned view contains a chunk exactly when the plane distance says so; it is then in bounds. */
  lemma ContainsIsDistance(view: TrackingView, chunk: ChunkAddress)
    requires view.Valid() && view.Positioned?
    ensures view.Contains(chunk) <==>
      Square(Beyond(chunk.x, view.center.x, 2)) + Square(Beyond(chunk.z, view.center.z, 2)) < Square(view.distance)
    ensures var dx, dz: int := chunk.x - view.center.x, chunk.z - view.center.z;
      var u: int := if dx > 2 then dx - 2 else if dx < -2 then -dx - 2 else 0;
      var v: int := if dz > 2 then dz - 2 else if dz < -2 then -dz - 2 else 0;
      view.Contains(chunk) <==> u * u + v * v < view.distance * view.distance
    ensures view.Contains(chunk) ==> view.bounds.Has(chunk)
  {
    SquaresBeyond(chunk.x, view.center.x, 2);
    SquaresBeyond(chunk.z, view.center.z, 2);
    SquaresBeyond(view.distance, 0, 0);
    hide Square, Axis, Beyond;
    var r: nat := view.distance;
    var x, z := Axis(chunk.x, view.center.x, 2), Axis(chunk.z, view.center.z, 2);
    var u, v := Beyond(chunk.x, view.center.x, 2), Beyond(chunk.z, view.center.z, 2);
    AxisIsBeyond(chunk.x, view.center.x, 2, r);
    AxisIsBeyond(chunk.z, view.center.z, 2, r);
    SumNeedsBoth(x, z, r);
    SumNeedsBoth(u, v, r);
  }

  /** Around an origin away from the edges the wrapping test is the circle of the plane, widened by one chunk or two. */
  lemma WithinMeans(center: ChunkAddress, distance: ViewDistance, chunk: ChunkAddress, includeNeighbors: bool)
    requires I32_MIN <= center.x - distance - 1 && center.x + distance + 1 <= I32_MAX
    requires I32_MIN <= center.z - distance - 1 && center.z + distance + 1 <= I32_MAX
    ensures var dx, dz: int := chunk.x - center.x, chunk.z - center.z;
      var border: int := if includeNeighbors then 2 else 1;
      var u: int := if dx > border then dx - border else if dx < -border then -dx - border else 0;
      var v: int := if dz > border then dz - border else if dz < -border then -dz - border else 0;
      IsWithinDistance(center, distance, chunk, includeNeighbors) <==> u * u + v * v < distance * distance
  {
    var border := if includeNeighbors then 2 else 1;
    SquaresBeyond(chunk.x, center.x, border);
    SquaresBeyond(chunk.z, center.z, border);
    SquaresBeyond(distance, 0, 0);
    hide Square, Axis, Beyond;
    AxisIsBeyond(chunk.x, center.x, border, distance);
    AxisIsBeyond(chunk.z, center.z, border, distance);
    SumNeedsBoth(Axis(chunk.x, center.x, border), Axis(chunk.z, center.z, border), distance);
    SumNeedsBoth(Beyond(chunk.x, center.x, border), Beyond(chunk.z, center.z, border), distance);
  }

  lemma SquaresBeyond(value: int, origin: int, border: nat)
    ensures var d, b: int := value - origin, border;
      var u: int := if d > b then d - b else if d < -b then -d - b else 0;
      Beyond(value, origin, border) == u && u * u == Square(u)
  {
  }

  /** A sum of squares below a square has both terms below it. */
  lemma SumNeedsBoth(a: nat, b: nat, r: nat)
    ensures Square(a) + Square(b) < Square(r) ==> a < r && b < r
  {
    SquareMonotone(r, a);
    SquareMonotone(r, b);
  }

  /** Without the admission test the wrapping distance sees across the edge of the world. */
  lemma WrapsAtTheEdge()
    ensures var center := ChunkAddress(I32_MAX, 0);
      IsWithinDistance(center, 2, ChunkAddress(I32_MIN, 0), true) && NewView(center, 2) == Err(CoordinateBounds)
      && Beyond(I32_MIN, I32_MAX, 2) > 2
  {
    hide WrapI32;
    WrapTurn(I32_MIN - I32_MAX);
    WrapTurn(1);
    WrapTurn(-1);
    WrapTurn(0);
    WrapTurn(-2);
    assert Axis(I32_MIN, I32_MAX, 2) == 0 && Axis(0, 0, 2) == 0;
  }

  // ----- scans -----

  /** A row-major walk of a rectangle: `next` is the cell to report, if any is left. */
  datatype Scan = Scan(bounds: Bounds, next: Option<ChunkAddress>) {
    predicate Valid() {
      bounds.Valid() && (next.Some? ==> bounds.Has(next.value))
    }
  }

  function NewScan(bounds: Bounds): Scan {
    Scan(bounds, Some(bounds.min))
  }

  function After(bounds: Bounds, at: ChunkAddress): (r: Option<ChunkAddress>)
    requires bounds.Valid() && bounds.Has(at)
    ensures r.Some? ==> bounds.Has(r.value)
  {
    if at.z < bounds.max.z then Some(ChunkAddress(at.x, at.z + 1))
    else if at.x < bounds.max.x then Some(ChunkAddress(at.x + 1, bounds.min.z))
    else None
  }

  method Next(scan: Scan) returns (r: Option<ChunkAddress>, after: Scan)
    requires scan.Valid()
    ensures after.Valid() && after.bounds == scan.bounds
    ensures r.None? ==> Cells(scan) == [] && after == scan
    ensures r.Some? ==> Cells(scan) == [r.value] + Cells(after)
  {
    r, after := scan.next, scan;
    if r.Some? {
      after := scan.(next := After(scan.bounds, r.value));
    }
  }

  /** The cells a scan still has to report, in order. */
  ghost function Cells(scan: Scan): seq<ChunkAddress>
    requires scan.Valid()
  {
    if scan.next.None? then [] else CellsFrom(scan.bounds, scan.next.value)
  }

  ghost function CellsFrom(bounds: Bounds, at: ChunkAddress): seq<ChunkAddress>
    requires bounds.Valid() && bounds.Has(at)
    decreases bounds.max.x - at.x, bounds.max.z - at.z
  {
    var after := After(bounds, at);
    [at] + if after.None? then [] else CellsFrom(bounds, after.value)
  }

  /** Cells in so many whole columns. */
  function Area(columns: int, height: int): int {
    columns * height
  }

  lemma AreaStep(columns: int, height: int)
    ensures Area(columns + 1, height) == Area(columns, height) + height && Area(0, height) == 0
  {
  }

  predicate Ahead(a: ChunkAddress, b: ChunkAddress) {
    a.x < b.x || (a.x == b.x && a.z < b.z)
  }

  lemma CellsStep(bounds: Bounds, at: ChunkAddress)
    requires bounds.Valid() && bounds.Has(at)
    ensures var after := After(bounds, at);
      CellsFrom(bounds, at) == [at] + if after.None? then [] else CellsFrom(bounds, after.value)
  {
  }

  /** Exactly the cells of the rectangle from here on. */
  lemma {:induction false} CellsAreRest(bounds: Bounds, at: ChunkAddress)
    requires bounds.Valid() && bounds.Has(at)
    ensures forall c :: c in CellsFrom(bounds, at) <==> bounds.Has(c) && (c == at || Ahead(at, c))
    decreases bounds.max.x - at.x, bounds.max.z - at.z
  {
    hide CellsFrom;
    CellsStep(bounds, at);
    var after := After(bounds, at);
    if after.Some? {
      CellsAreRest(bounds, after.value);
      forall c | bounds.Has(c) && Ahead(at, c) ensures c == after.value || Ahead(after.value, c) {
      }
    }
  }

  /** In row-major order, so none twice. */
  lemma {:induction false} CellsAscend(bounds: Bounds, at: ChunkAddress)
    requires bounds.Valid() && bounds.Has(at)
    ensures forall i, j :: 0 <= i < j < |CellsFrom(bounds, at)| ==> CellsFrom(bounds, at)[i] != CellsFrom(bounds, at)[j]
    decreases bounds.max.x - at.x, bounds.max.z - at.z
  {
    hide CellsFrom;
    CellsStep(bounds, at);
    var after := After(bounds, at);
    if after.Some? {
      CellsAscend(bounds, after.value);
      CellsAreRest(bounds, after.value);
      var rest := CellsFrom(bounds, after.value);
      forall k | 0 <= k < |rest| ensures rest[k] != at {
        assert rest[k] in rest;
      }
    }
  }

  lemma {:induction false} CellsCount(bounds: Bounds, at: ChunkAddress)
    requires bounds.Valid() && bounds.Has(at)
    ensures |CellsFrom(bounds, at)| == Area(bounds.max.x - at.x, bounds.Height()) + bounds.max.z - at.z + 1
    decreases bounds.max.x - at.x, bounds.max.z - at.z
  {
    hide CellsFrom, Area;
    CellsStep(bounds, at);
    AreaStep(bounds.max.x - at.x - 1, bounds.Height());
    AreaStep(0, bounds.Height());
    var after := After(bounds, at);
    if after.Some? {
      CellsCount(bounds, after.value);
    }
  }

  /** A fresh scan reports every cell of its rectangle once. */
  lemma WholeScan(bounds: Bounds)
    requires bounds.Valid()
    ensures NewScan(bounds).Valid()
    ensures forall c :: c in Cells(NewScan(bounds)) <==> bounds.Has(c)
    ensures forall i, j :: 0 <= i < j < |Cells(NewScan(bounds))| ==> Cells(NewScan(bounds))[i] != Cells(NewScan(bounds))[j]
    ensures |Cells(NewScan(bounds))| == Area(bounds.Width(), bounds.Height())
  {
    hide Area, CellsFrom;
    CellsAreRest(bounds, bounds.min);
    CellsAscend(bounds, bounds.min);
    CellsCount(bounds, bounds.min);
    AreaStep(bounds.max.x - bounds.min.x, bounds.Height());
    forall c | bounds.Has(c) ensures c == bounds.min || Ahead(bounds.min, c) {
    }
  }
}
