/** Scheduled ticks of one world: positions, priorities, identities and area bounds. */
module TickTypes {
  import opened World

  datatype TickPosition = TickPosition(x: i32, y: i32, z: i32) {
    /** Chunk coordinates are an arithmetic shift right by four. */
    function Chunk(): (r: ChunkAddress)
      ensures 16 * r.x <= x < 16 * r.x + 16 && 16 * r.z <= z < 16 * r.z + 16
    {
      ChunkAddress(x / 16, z / 16)
    }
  }

  datatype TickPriority =
    ExtremelyHigh | VeryHigh | High | Normal | Low | VeryLow | ExtremelyLow
  {
    function Rank(): int {
      match this
      case ExtremelyHigh => -3
      case VeryHigh => -2
      case High => -1
      case Normal => 0
      case Low => 1
      case VeryLow => 2
      case ExtremelyLow => 3
    }
  }

  datatype Identity = Identity(position: TickPosition, typeId: u32)

  datatype ScheduledTick = ScheduledTick(
    position: TickPosition, typeId: u32, triggerTick: i64, priority: TickPriority, subTickOrder: i64)
  {
    function Id(): Identity {
      Identity(position, typeId)
    }

    function Key(): OrderKey {
      OrderKey(priority, subTickOrder)
    }
  }

  datatype SavedTick = SavedTick(position: TickPosition, typeId: u32, delay: i32, priority: TickPriority) {
    function Id(): Identity {
      Identity(position, typeId)
    }
  }

  datatype OrderKey = OrderKey(priority: TickPriority, subTickOrder: i64) {
    /** Order inside one game tick: priority, then sub-tick order. */
    predicate Before(other: OrderKey) {
      priority.Rank() < other.priority.Rank()
      || (priority.Rank() == other.priority.Rank() && subTickOrder < other.subTickOrder)
    }
  }

  predicate WithinBefore(a: ScheduledTick, b: ScheduledTick) {
    a.Key().Before(b.Key())
  }

  /** Queue order: trigger time, then order inside the tick. */
  predicate Precedes(a: ScheduledTick, b: ScheduledTick) {
    a.triggerTick < b.triggerTick || (a.triggerTick == b.triggerTick && WithinBefore(a, b))
  }

  /** Non-strict queue order; total and transitive, with ties. */
  predicate Le(a: ScheduledTick, b: ScheduledTick) {
    !Precedes(b, a)
  }

  // ----- the order, spelled out -----

  /** Priorities from the first to the last served. */
  const PRIORITIES: seq<TickPriority> := [ExtremelyHigh, VeryHigh, High, Normal, Low, VeryLow, ExtremelyLow]

  /** Inside one game tick `a` is served no later than `b`: a better priority, or the same and created no later. */
  ghost predicate InTurn(a: ScheduledTick, b: ScheduledTick) {
    exists i, j :: 0 <= i < 7 && 0 <= j < 7 && PRIORITIES[i] == a.priority && PRIORITIES[j] == b.priority
                   && (i < j || (i == j && a.subTickOrder <= b.subTickOrder))
  }

  lemma PlaceOf(p: TickPriority) returns (i: nat)
    ensures i < 7 && PRIORITIES[i] == p && p.Rank() == i - 3
    ensures forall j :: 0 <= j < 7 && PRIORITIES[j] == p ==> j == i
  {
    i := p.Rank() + 3;
  }

  /** The comparisons of the code are the order of trigger times, listed priorities and creation. */
  lemma OrderMeans(a: ScheduledTick, b: ScheduledTick)
    ensures !WithinBefore(b, a) <==> InTurn(a, b)
    ensures Le(a, b) <==> a.triggerTick < b.triggerTick || (a.triggerTick == b.triggerTick && InTurn(a, b))
  {
    var i := PlaceOf(a.priority);
    var j := PlaceOf(b.priority);
    assert InTurn(a, b) <==> i < j || (i == j && a.subTickOrder <= b.subTickOrder);
  }

  datatype TickBounds = TickBounds(min: TickPosition, max: TickPosition) {
    predicate Valid() {
      min.x <= max.x && min.y <= max.y && min.z <= max.z
    }

    predicate Contains(pos: TickPosition) {
      && min.x <= pos.x <= max.x
      && min.y <= pos.y <= max.y
      && min.z <= pos.z <= max.z
    }

    predicate ContainsChunk(chunk: ChunkAddress) {
      && min.Chunk().x <= chunk.x <= max.Chunk().x
      && min.Chunk().z <= chunk.z <= max.Chunk().z
    }
  }

  /** An area has a position exactly if it is valid, and holds both its corners and all between them. */
  lemma BoundsMeans(bounds: TickBounds, pos: TickPosition)
    ensures bounds.Valid() <==> exists p :: bounds.Contains(p)
    ensures bounds.Valid() ==> bounds.Contains(bounds.min) && bounds.Contains(bounds.max)
    ensures bounds.Contains(pos) <==>
            && (bounds.min.x < pos.x || bounds.min.x == pos.x) && (pos.x < bounds.max.x || pos.x == bounds.max.x)
            && (bounds.min.y < pos.y || bounds.min.y == pos.y) && (pos.y < bounds.max.y || pos.y == bounds.max.y)
            && (bounds.min.z < pos.z || bounds.min.z == pos.z) && (pos.z < bounds.max.z || pos.z == bounds.max.z)
  {
    if bounds.Valid() {
      assert bounds.Contains(bounds.min);
    }
  }

  /** The chunk filter of an area operation never skips a chunk holding a contained tick. */
  lemma ContainedTickInContainedChunk(bounds: TickBounds, pos: TickPosition)
    requires bounds.Contains(pos)
    ensures bounds.ContainsChunk(pos.Chunk())
  {
  }
}
