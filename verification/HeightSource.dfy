/** The blocks a heightmap describes, and the surface of each of their columns. */
module HeightSource {
  import opened World

  datatype HeightmapKind = WorldSurfaceWg | WorldSurface | OceanFloorWg | OceanFloor | MotionBlocking | MotionBlockingNoLeaves

  datatype HeightmapError =
    | AllocationLimit | SectionCount | InvalidSection | InvalidState(state: u32) | InvalidColumn | InvalidY | ContextMismatch

  datatype StateFlags = StateFlags(isAir: bool, hasFluid: bool, blocksMotion: bool, blocksMotionNoLeaves: bool)

  /** The maps a state counts for. */
  function MaskOf(flags: StateFlags): set<HeightmapKind> {
    (if flags.isAir then {} else {WorldSurfaceWg, WorldSurface})
    + (if flags.blocksMotion then {OceanFloorWg, OceanFloor} else {})
    + (if flags.blocksMotion || flags.hasFluid then {MotionBlocking} else {})
    + (if flags.blocksMotionNoLeaves || flags.hasFluid then {MotionBlockingNoLeaves} else {})
  }

  datatype Registry = Registry(states: seq<StateFlags>, air: u32, digest: seq<u8>)

  datatype Section = Section(blocks: seq<u32>, nonEmpty: u16)

  /** What a map and its blocks must share: build height and registry. */
  datatype Context = Context(minSection: int, maxSection: int, digest: seq<u8>) {
    predicate Valid() {
      -128 <= minSection <= maxSection <= 127
    }

    function Sections(): int {
      maxSection - minSection + 1
    }

    function MinY(): int {
      minSection * 16
    }

    function MaxY(): int {
      (maxSection + 1) * 16
    }
  }

  datatype Source = Source(registry: Registry, context: Context, sections: seq<Option<Section>>, highestSection: int) {
    /** Sections hold known states and an honest count; none above the highest holds anything but air. */
    ghost predicate Valid() {
      && context.Valid() && |sections| == context.Sections() && registry.air < |registry.states|
      && (forall i :: 0 <= i < |sections| && sections[i].Some? ==> SectionOk(sections[i].value, registry))
      && context.minSection <= highestSection <= context.maxSection
      && (forall i :: 0 <= i < |sections| && context.minSection + i > highestSection ==> sections[i].None? || sections[i].value.nonEmpty == 0)
    }

    /** The state of a cell; a section counted empty reads as plain air, whatever kind it stores. */
    function State(x: u8, y: int, z: u8): u32
      requires Valid() && x < 16 && z < 16 && context.MinY() <= y < context.MaxY()
    {
      var section := sections[y / 16 - context.minSection];
      if section.None? || section.value.nonEmpty == 0 then registry.air
      else section.value.blocks[x + 16 * z + 256 * (y % 16)]
    }

    predicate Opaque(kind: HeightmapKind, state: u32)
      requires state < |registry.states|
    {
      kind in MaskOf(registry.states[state])
    }

    /** Priming never stops at plain air, even if its flags would count. */
    predicate Stops(kind: HeightmapKind, state: u32)
      requires state < |registry.states|
    {
      state != registry.air && Opaque(kind, state)
    }
  }

  ghost function NonAir(blocks: seq<u32>, states: seq<StateFlags>): nat
    requires forall i :: 0 <= i < |blocks| ==> blocks[i] < |states|
  {
    if blocks == [] then 0
    else NonAir(blocks[..|blocks| - 1], states) + if states[blocks[|blocks| - 1]].isAir then 0 else 1
  }

  ghost predicate SectionOk(section: Section, registry: Registry) {
    && |section.blocks| == 4096 && (forall i :: 0 <= i < 4096 ==> section.blocks[i] < |registry.states|)
    && section.nonEmpty == NonAir(section.blocks, registry.states)
  }

  lemma StateKnown(source: Source, x: u8, y: int, z: u8)
    requires source.Valid() && x < 16 && z < 16 && source.context.MinY() <= y < source.context.MaxY()
    ensures source.State(x, y, z) < |source.registry.states|
  {
  }

  // ----- building a source -----

  /** Checks one section: all its cells, known states, and a count that agrees with them. */
  method CheckSection(section: Section, registry: Registry) returns (r: Result<(), HeightmapError>)
    ensures r.Ok? ==> |section.blocks| >= 4096 && SectionOk(section.(blocks := section.blocks[..4096]), registry)
    ensures |section.blocks| <= 4096 ==> (r.Ok? <==> SectionOk(section, registry))
    ensures r.Err? ==> r.error == InvalidSection || (r.error.InvalidState? && r.error.state in section.blocks && r.error.state >= |registry.states|)
  {
    var nonEmpty: nat := 0;
    for cell := 0 to 4096
      invariant cell <= |section.blocks| && (forall i :: 0 <= i < cell ==> section.blocks[i] < |registry.states|)
      invariant nonEmpty == NonAir(section.blocks[..cell], registry.states)
    {
      if cell >= |section.blocks| {
        return Err(InvalidSection);
      }
      var id := section.blocks[cell];
      if id >= |registry.states| {
        return Err(InvalidState(id));
      }
      assert section.blocks[..cell + 1][..cell] == section.blocks[..cell];
      nonEmpty := nonEmpty + if registry.states[id].isAir then 0 else 1;
    }
    assert |section.blocks| == 4096 ==> section.blocks[..4096] == section.blocks;
    if nonEmpty != section.nonEmpty {
      return Err(InvalidSection);
    }
    r := Ok(());
  }

  /** A checked snapshot; the highest section is the last one with a non-air block. */
  method FromSections(registry: Registry, minSection: int, maxSection: int, sections: seq<Option<Section>>)
      returns (r: Result<Source, HeightmapError>)
    requires registry.air < |registry.states| && -128 <= minSection <= maxSection <= 127
    requires forall i :: 0 <= i < |sections| && sections[i].Some? ==> |sections[i].value.blocks| <= 4096
    ensures r.Ok? ==> r.value.Valid() && r.value.sections == sections && r.value.registry == registry
                      && r.value.context == Context(minSection, maxSection, registry.digest)
    ensures |sections| != maxSection - minSection + 1 ==> r == Err(SectionCount)
    ensures |sections| == maxSection - minSection + 1 ==>
      (r.Ok? <==> forall i :: 0 <= i < |sections| && sections[i].Some? ==> SectionOk(sections[i].value, registry))
  {
    hide SectionOk;
    var context := Context(minSection, maxSection, registry.digest);
    if |sections| != context.Sections() {
      return Err(SectionCount);
    }
    var highest := minSection;
    for index := 0 to |sections|
      invariant minSection <= highest <= maxSection
      invariant forall i :: 0 <= i < index && sections[i].Some? ==> SectionOk(sections[i].value, registry)
      invariant forall i :: 0 <= i < index && minSection + i > highest ==> sections[i].None? || sections[i].value.nonEmpty == 0
    {
      if sections[index].Some? {
        var checked := CheckSection(sections[index].value, registry);
        if checked.Err? {
          return Err(checked.error);
        }
        if sections[index].value.nonEmpty != 0 {
          highest := minSection + index;
        }
      }
    }
    r := Ok(Source(registry, context, sections, highest));
  }

  // ----- surfaces -----

  /** One above the highest counted block of a column, or the bottom if there is none. */
  ghost predicate IsSurface(source: Source, kind: HeightmapKind, x: u8, z: u8, h: int)
    requires source.Valid() && x < 16 && z < 16
  {
    var c := source.context;
    && c.MinY() <= h <= c.MaxY()
    && (forall y :: h <= y < c.MaxY() ==> !OpaqueAt(source, kind, x, y, z))
    && (h > c.MinY() ==> OpaqueAt(source, kind, x, h - 1, z))
  }

  ghost predicate OpaqueAt(source: Source, kind: HeightmapKind, x: u8, y: int, z: u8)
    requires source.Valid() && x < 16 && z < 16 && source.context.MinY() <= y < source.context.MaxY()
  {
    StateKnown(source, x, y, z);
    source.Opaque(kind, source.State(x, y, z))
  }

  lemma SurfaceIsUnique(source: Source, kind: HeightmapKind, x: u8, z: u8, a: int, b: int)
    requires source.Valid() && x < 16 && z < 16 && IsSurface(source, kind, x, z, a) && IsSurface(source, kind, x, z, b)
    ensures a == b
  {
  }

  /** The flags of ordinary air count for no map. */
  lemma PlainAirIsClear(flags: StateFlags)
    ensures MaskOf(flags) == {} <==> flags.isAir && !flags.hasFluid && !flags.blocksMotion && !flags.blocksMotionNoLeaves
  {
    if !flags.isAir {
      assert WorldSurface in MaskOf(flags);
    }
    if flags.blocksMotion || flags.hasFluid {
      assert MotionBlocking in MaskOf(flags);
    }
    if flags.blocksMotionNoLeaves {
      assert MotionBlockingNoLeaves in MaskOf(flags);
    }
  }

  /** The flags of the state a cell reads as. */
  ghost function FlagsAt(source: Source, x: u8, y: int, z: u8): StateFlags
    requires source.Valid() && x < 16 && z < 16 && source.context.MinY() <= y < source.context.MaxY()
  {
    StateKnown(source, x, y, z);
    source.registry.states[source.State(x, y, z)]
  }

  /** Which maps a cell counts for, flag by flag. */
  lemma CountsMean(source: Source, x: u8, y: int, z: u8)
    requires source.Valid() && x < 16 && z < 16 && source.context.MinY() <= y < source.context.MaxY()
    ensures var flags := FlagsAt(source, x, y, z);
      && (OpaqueAt(source, WorldSurfaceWg, x, y, z) <==> !flags.isAir)
      && (OpaqueAt(source, WorldSurface, x, y, z) <==> !flags.isAir)
      && (OpaqueAt(source, OceanFloorWg, x, y, z) <==> flags.blocksMotion)
      && (OpaqueAt(source, OceanFloor, x, y, z) <==> flags.blocksMotion)
      && (OpaqueAt(source, MotionBlocking, x, y, z) <==> flags.blocksMotion || flags.hasFluid)
      && (OpaqueAt(source, MotionBlockingNoLeaves, x, y, z) <==> flags.blocksMotionNoLeaves || flags.hasFluid)
  {
    hide Source.State;
    StateKnown(source, x, y, z);
    MaskMeans(FlagsAt(source, x, y, z));
  }

  /** Priming stops at what counts, unless it is plain air. */
  lemma StopsMean(source: Source, x: u8, y: int, z: u8)
    requires source.Valid() && x < 16 && z < 16 && source.context.MinY() <= y < source.context.MaxY()
    ensures var flags, solid := FlagsAt(source, x, y, z), source.State(x, y, z) != source.registry.air;
      && (StopsAt(source, WorldSurfaceWg, x, y, z) <==> solid && !flags.isAir)
      && (StopsAt(source, WorldSurface, x, y, z) <==> solid && !flags.isAir)
      && (StopsAt(source, OceanFloorWg, x, y, z) <==> solid && flags.blocksMotion)
      && (StopsAt(source, OceanFloor, x, y, z) <==> solid && flags.blocksMotion)
      && (StopsAt(source, MotionBlocking, x, y, z) <==> solid && (flags.blocksMotion || flags.hasFluid))
      && (StopsAt(source, MotionBlockingNoLeaves, x, y, z) <==> solid && (flags.blocksMotionNoLeaves || flags.hasFluid))
  {
    hide Source.State;
    StateKnown(source, x, y, z);
    MaskMeans(FlagsAt(source, x, y, z));
  }

  lemma MaskMeans(flags: StateFlags)
    ensures WorldSurfaceWg in MaskOf(flags) <==> !flags.isAir
    ensures WorldSurface in MaskOf(flags) <==> !flags.isAir
    ensures OceanFloorWg in MaskOf(flags) <==> flags.blocksMotion
    ensures OceanFloor in MaskOf(flags) <==> flags.blocksMotion
    ensures MotionBlocking in MaskOf(flags) <==> flags.blocksMotion || flags.hasFluid
    ensures MotionBlockingNoLeaves in MaskOf(flags) <==> flags.blocksMotionNoLeaves || flags.hasFluid
  {
  }

  /** Below an ocean floor something blocks motion and nothing above does; below a motion surface something blocks it or is fluid. */
  lemma SurfaceMeans(source: Source, x: u8, z: u8, floor: int, motion: int)
    requires source.Valid() && x < 16 && z < 16
    requires IsSurface(source, OceanFloor, x, z, floor) && IsSurface(source, MotionBlocking, x, z, motion)
    ensures source.context.MinY() <= floor <= motion <= source.context.MaxY()
    ensures floor > source.context.MinY() ==> FlagsAt(source, x, floor - 1, z).blocksMotion
    ensures forall y :: floor <= y < source.context.MaxY() ==> !FlagsAt(source, x, y, z).blocksMotion
    ensures motion > source.context.MinY() ==> FlagsAt(source, x, motion - 1, z).blocksMotion || FlagsAt(source, x, motion - 1, z).hasFluid
    ensures forall y :: motion <= y < source.context.MaxY() ==> !FlagsAt(source, x, y, z).blocksMotion && !FlagsAt(source, x, y, z).hasFluid
  {
    hide FlagsAt, OpaqueAt, Source.Valid;
    forall y | source.context.MinY() <= y < source.context.MaxY()
      ensures OpaqueAt(source, OceanFloor, x, y, z) <==> FlagsAt(source, x, y, z).blocksMotion
      ensures OpaqueAt(source, MotionBlocking, x, y, z) <==> FlagsAt(source, x, y, z).blocksMotion || FlagsAt(source, x, y, z).hasFluid
    {
      CountsMean(source, x, y, z);
    }
  }

  /** The first stopping block at or below `top - 1`, walking down. */
  ghost function TopStop(source: Source, kind: HeightmapKind, x: u8, z: u8, top: int): Option<int>
    requires source.Valid() && x < 16 && z < 16 && source.context.MinY() <= top <= source.context.MaxY()
    decreases top - source.context.MinY()
  {
    if top == source.context.MinY() then None
    else if StopsAt(source, kind, x, top - 1, z) then Some(top - 1)
    else TopStop(source, kind, x, z, top - 1)
  }

  ghost predicate StopsAt(source: Source, kind: HeightmapKind, x: u8, y: int, z: u8)
    requires source.Valid() && x < 16 && z < 16 && source.context.MinY() <= y < source.context.MaxY()
  {
    StateKnown(source, x, y, z);
    source.Stops(kind, source.State(x, y, z))
  }

  /** Where priming starts: just above the highest section that holds anything. */
  function ScanTop(source: Source): int {
    source.highestSection * 16 + 16
  }

  /** Nothing stops above there, so starting there misses nothing. */
  lemma {:induction false} NothingAbove(source: Source, kind: HeightmapKind, x: u8, z: u8, top: int)
    requires source.Valid() && x < 16 && z < 16 && ScanTop(source) <= top <= source.context.MaxY()
    ensures source.context.MinY() <= ScanTop(source) <= source.context.MaxY()
    ensures TopStop(source, kind, x, z, top) == TopStop(source, kind, x, z, ScanTop(source))
    decreases top - ScanTop(source)
  {
    if top > ScanTop(source) {
      var y := top - 1;
      assert y / 16 > source.highestSection;
      var i := y / 16 - source.context.minSection;
      assert source.context.minSection + i > source.highestSection;
      assert source.State(x, y, z) == source.registry.air;
      NothingAbove(source, kind, x, z, top - 1);
    }
  }

  lemma {:induction false} TopStopIsHighest(source: Source, kind: HeightmapKind, x: u8, z: u8, top: int)
    requires source.Valid() && x < 16 && z < 16 && source.context.MinY() <= top <= source.context.MaxY()
    ensures var found := TopStop(source, kind, x, z, top);
      && (found.Some? ==> source.context.MinY() <= found.value < top && StopsAt(source, kind, x, found.value, z)
                          && forall y :: found.value < y < top ==> !StopsAt(source, kind, x, y, z))
      && (found.None? ==> forall y :: source.context.MinY() <= y < top ==> !StopsAt(source, kind, x, y, z))
    decreases top - source.context.MinY()
  {
    hide StopsAt, Source.Valid;
    if top > source.context.MinY() && !StopsAt(source, kind, x, top - 1, z) {
      TopStopIsHighest(source, kind, x, z, top - 1);
    }
  }

  /** What priming stores is the surface, or leaves alone a column where nothing stops. */
  lemma PrimingFindsSurface(source: Source, kind: HeightmapKind, x: u8, z: u8)
    requires source.Valid() && x < 16 && z < 16 && !source.Opaque(kind, source.registry.air)
    ensures source.context.MinY() <= ScanTop(source) <= source.context.MaxY()
    ensures var found := TopStop(source, kind, x, z, ScanTop(source));
      IsSurface(source, kind, x, z, if found.Some? then found.value + 1 else source.context.MinY())
  {
    hide StopsAt, OpaqueAt, TopStop, Source.Valid;
    var top := source.context.MaxY();
    Height(source);
    NothingAbove(source, kind, x, z, top);
    TopStopIsHighest(source, kind, x, z, top);
    forall y | source.context.MinY() <= y < top ensures StopsAt(source, kind, x, y, z) <==> OpaqueAt(source, kind, x, y, z) {
      StopsIsOpaque(source, kind, x, y, z);
    }
  }

  lemma Height(source: Source)
    requires source.Valid()
    ensures source.context.Valid() && source.context.MinY() <= ScanTop(source) <= source.context.MaxY()
    ensures source.registry.air < |source.registry.states|
  {
  }

  lemma StopsIsOpaque(source: Source, kind: HeightmapKind, x: u8, y: int, z: u8)
    requires source.Valid() && x < 16 && z < 16 && source.context.MinY() <= y < source.context.MaxY()
    requires source.registry.air < |source.registry.states| && !source.Opaque(kind, source.registry.air)
    ensures StopsAt(source, kind, x, y, z) <==> OpaqueAt(source, kind, x, y, z)
  {
    hide MaskOf, Source.State;
    StateKnown(source, x, y, z);
  }

  // ----- edits -----

  /** What a section stores; a missing one stores plain air. */
  function StoredBlocks(section: Option<Section>, air: u32): seq<u32> {
    if section.None? then seq(4096, _ => air) else section.value.blocks
  }

  /** One stored cell became `state`. The count of its section, and the highest section, are those of the new blocks. */
  ghost predicate Edited(before: Source, after: Source, x: u8, y: int, z: u8, state: u32)
    requires x < 16 && z < 16
  {
    && before.Valid() && after.Valid() && before.context == after.context && before.registry == after.registry
    && before.context.MinY() <= y < before.context.MaxY() && state < |before.registry.states|
    && (forall i :: 0 <= i < |before.sections| && i != y / 16 - before.context.minSection ==> after.sections[i] == before.sections[i])
    && var i := y / 16 - before.context.minSection;
       && after.sections[i].Some?
       && |StoredBlocks(before.sections[i], before.registry.air)| == 4096
       && after.sections[i].value.blocks == StoredBlocks(before.sections[i], before.registry.air)[x + 16 * z + 256 * (y % 16) := state]
  }

  /** No kind of air is told from plain air by this map. */
  predicate AirIsAlike(registry: Registry, kind: HeightmapKind)
    requires registry.air < |registry.states|
  {
    forall state: u32 :: state < |registry.states| && registry.states[state].isAir ==>
      (kind in MaskOf(registry.states[state]) <==> kind in MaskOf(registry.states[registry.air]))
  }

  /** A section counted empty stores nothing but kinds of air. */
  lemma {:induction false} CountedEmpty(blocks: seq<u32>, states: seq<StateFlags>)
    requires forall i :: 0 <= i < |blocks| ==> blocks[i] < |states|
    ensures NonAir(blocks, states) == 0 <==> forall i :: 0 <= i < |blocks| ==> states[blocks[i]].isAir
  {
    if blocks != [] {
      var n := |blocks| - 1;
      CountedEmpty(blocks[..n], states);
      assert forall i :: 0 <= i < n ==> blocks[..n][i] == blocks[i];
    }
  }

  lemma {:induction false} CountAfterEdit(blocks: seq<u32>, states: seq<StateFlags>, i: nat, state: u32)
    requires i < |blocks| && state < |states| && forall k :: 0 <= k < |blocks| ==> blocks[k] < |states|
    ensures NonAir(blocks[i := state], states) + (if states[blocks[i]].isAir then 0 else 1)
            == NonAir(blocks, states) + if states[state].isAir then 0 else 1
  {
    var n := |blocks| - 1;
    if i < n {
      CountAfterEdit(blocks[..n], states, i, state);
      assert blocks[i := state][..n] == blocks[..n][i := state];
    } else {
      assert blocks[i := state][..n] == blocks[..n];
    }
  }

  /** What a cell reads matches a map as what it stores does, whether or not its section is counted empty. */
  lemma ReadsAsStored(source: Source, kind: HeightmapKind, x: u8, y: int, z: u8)
    requires source.Valid() && x < 16 && z < 16 && source.context.MinY() <= y < source.context.MaxY()
    requires AirIsAlike(source.registry, kind)
    ensures var i := y / 16 - source.context.minSection;
      var stored := StoredBlocks(source.sections[i], source.registry.air);
      && |stored| == 4096 && stored[x + 16 * z + 256 * (y % 16)] < |source.registry.states|
      && (OpaqueAt(source, kind, x, y, z) <==> source.Opaque(kind, stored[x + 16 * z + 256 * (y % 16)]))
  {
    hide MaskOf;
    var section := source.sections[y / 16 - source.context.minSection];
    if section.Some? {
      CountedEmpty(section.value.blocks, source.registry.states);
    }
  }

  /** An edit changes what its own cell matches, and nothing else. */
  lemma EditIsLocal(before: Source, after: Source, x: u8, y: int, z: u8, state: u32, kind: HeightmapKind, u: u8, v: int, w: u8)
    requires x < 16 && z < 16 && Edited(before, after, x, y, z, state) && AirIsAlike(before.registry, kind)
    requires u < 16 && w < 16 && before.context.MinY() <= v < before.context.MaxY()
    ensures OpaqueAt(after, kind, u, v, w) ==
            if (u, v, w) == (x, y, z) then before.Opaque(kind, state) else OpaqueAt(before, kind, u, v, w)
  {
    hide MaskOf, OpaqueAt, AirIsAlike, Source.Valid, Source.Opaque, StoredBlocks;
    EditedSources(before, after, x, y, z, state);
    ReadsAsStored(before, kind, u, v, w);
    ReadsAsStored(after, kind, u, v, w);
    EditedStorage(before, after, x, y, z, state, v / 16 - before.context.minSection);
    OpaqueAgrees(before, after, kind);
    if v / 16 == y / 16 {
      CellsDiffer(x, y % 16, z, u, v % 16, w);
      HeightsDiffer(y, v);
    }
  }

  lemma EditedSources(before: Source, after: Source, x: u8, y: int, z: u8, state: u32)
    requires x < 16 && z < 16 && Edited(before, after, x, y, z, state)
    ensures before.Valid() && after.Valid() && before.context == after.context && before.registry == after.registry
    ensures state < |before.registry.states|
    ensures forall v :: before.context.MinY() <= v < before.context.MaxY() ==>
              0 <= v / 16 - before.context.minSection < |before.sections| == |after.sections|
  {
  }

  /** What a section stores after the edit. */
  lemma EditedStorage(before: Source, after: Source, x: u8, y: int, z: u8, state: u32, i: nat)
    requires x < 16 && z < 16 && Edited(before, after, x, y, z, state) && i < |before.sections| == |after.sections|
    ensures var was := StoredBlocks(before.sections[i], before.registry.air);
      && x + 16 * z + 256 * (y % 16) < 4096
      && StoredBlocks(after.sections[i], before.registry.air) ==
         if i == y / 16 - before.context.minSection && |was| == 4096 then was[x + 16 * z + 256 * (y % 16) := state] else was
    ensures i == y / 16 - before.context.minSection ==> |StoredBlocks(before.sections[i], before.registry.air)| == 4096
  {
  }

  lemma OpaqueAgrees(before: Source, after: Source, kind: HeightmapKind)
    requires before.registry == after.registry
    ensures forall state: u32 :: state < |before.registry.states| ==> before.Opaque(kind, state) == after.Opaque(kind, state)
  {
  }

  lemma HeightsDiffer(y: int, v: int)
    requires y / 16 == v / 16
    ensures y % 16 == v % 16 <==> y == v
  {
  }

  lemma CellsDiffer(x: int, y: int, z: int, u: int, v: int, w: int)
    requires 0 <= x < 16 && 0 <= y < 16 && 0 <= z < 16 && 0 <= u < 16 && 0 <= v < 16 && 0 <= w < 16
    ensures x + 16 * z + 256 * y == u + 16 * w + 256 * v <==> (x, y, z) == (u, v, w)
  {
    if x + 16 * z + 256 * y == u + 16 * w + 256 * v {
      var k := w - z + 16 * (v - y);
      assert x - u == 16 * k && -16 < x - u < 16;
      assert k == 0;
      assert -16 < w - z < 16;
    }
  }
}
