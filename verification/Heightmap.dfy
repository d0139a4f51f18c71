/** Heightmaps kept up to date under edits, restored from storage, and primed together. */
module Heightmap {
  import opened World
  import opened PackedWords
  import opened HeightColumns
  import opened HeightSource

  // ----- field width -----

  function BitLength(n: nat): nat {
    if n == 0 then 0 else 1 + BitLength(n / 2)
  }

  lemma {:induction false} BitLengthBounds(n: nat)
    ensures n < Pow(2, BitLength(n)) && (n > 0 ==> Pow(2, BitLength(n) - 1) <= n)
  {
    if n > 0 {
      BitLengthBounds(n / 2);
    }
  }

  lemma {:induction false} BitLengthGrows(m: nat, n: nat)
    requires m <= n
    ensures BitLength(m) <= BitLength(n)
  {
    if m > 0 {
      BitLengthGrows(m / 2, n / 2);
    }
  }

  /** Enough bits for every height from the bottom to one above the top. */
  function HeightBits(context: Context): nat
    requires context.Valid()
  {
    BitLength(context.Sections() * 16)
  }

  lemma HeightBitsFit(context: Context)
    requires context.Valid()
    ensures 5 <= HeightBits(context) <= 13
    ensures context.MaxY() - context.MinY() < Pow(2, HeightBits(context))
    ensures Pow(2, HeightBits(context) - 1) <= context.MaxY() - context.MinY()
  {
    var blocks := context.Sections() * 16;
    BitLengthBounds(blocks);
    BitLengthGrows(16, blocks);
    BitLengthGrows(blocks, 4096);
    assert BitLength(16) == 1 + BitLength(8) && BitLength(8) == 1 + BitLength(4);
    assert BitLength(4) == 3;
    assert BitLength(4096) == 1 + BitLength(2048) && BitLength(2048) == 1 + BitLength(1024) && BitLength(1024) == 1 + BitLength(512);
    assert BitLength(512) == 1 + BitLength(256) && BitLength(256) == 1 + BitLength(128) && BitLength(128) == 1 + BitLength(64);
    assert BitLength(64) == 1 + BitLength(32) && BitLength(32) == 1 + BitLength(16);
  }

  // ----- what priming stores -----

  /** A map's words for a context. */
  ghost predicate Fits(words: seq<u64>, context: Context) {
    context.Valid() && Shaped(words, HeightBits(context))
  }

  function ColumnOf(x: u8, z: u8): nat {
    x + 16 * z
  }

  /** Storing an absolute height. */
  function Store(words: seq<u64>, context: Context, index: nat, first: int): (r: seq<u64>)
    requires Fits(words, context) && index < COLUMNS && context.MinY() <= first <= context.MaxY()
    ensures Fits(r, context)
  {
    HeightBitsFit(context);
    SetColumn(words, HeightBits(context), index, first - context.MinY())
  }

  function HeightAt(words: seq<u64>, context: Context, index: nat): int
    requires Fits(words, context) && index < COLUMNS
  {
    Column(words, HeightBits(context), index) + context.MinY()
  }

  lemma StoreEffect(words: seq<u64>, context: Context, index: nat, first: int, j: nat)
    requires Fits(words, context) && index < COLUMNS && context.MinY() <= first <= context.MaxY() && j < COLUMNS
    ensures HeightAt(Store(words, context, index, first), context, j) == if j == index then first else HeightAt(words, context, j)
  {
    HeightBitsFit(context);
    SetColumnEffect(words, HeightBits(context), index, first - context.MinY(), j);
  }

  /** One column after priming: one above the first stopping block, or left alone. */
  ghost function PrimeColumn(words: seq<u64>, source: Source, kind: HeightmapKind, index: nat): (r: seq<u64>)
    requires source.Valid() && Fits(words, source.context) && index < COLUMNS
    ensures Fits(r, source.context)
  {
    Height(source);
    var found := TopStop(source, kind, index % 16, index / 16, ScanTop(source));
    if found.None? then words
    else
      TopStopIsHighest(source, kind, index % 16, index / 16, ScanTop(source));
      Store(words, source.context, index, found.value + 1)
  }

  /** The words after priming the first `n` columns. */
  ghost function Primed(words: seq<u64>, source: Source, kind: HeightmapKind, n: nat): (r: seq<u64>)
    requires source.Valid() && Fits(words, source.context) && n <= COLUMNS
    ensures Fits(r, source.context)
  {
    if n == 0 then words else PrimeColumn(Primed(words, source, kind, n - 1), source, kind, n - 1)
  }

  /** Priming sets each column from its own blocks; others are untouched on the way. */
  lemma {:induction false} PrimedColumn(words: seq<u64>, source: Source, kind: HeightmapKind, n: nat, j: nat)
    requires source.Valid() && Fits(words, source.context) && n <= COLUMNS && j < COLUMNS
    ensures source.context.MinY() <= ScanTop(source) <= source.context.MaxY()
    ensures HeightAt(Primed(words, source, kind, n), source.context, j) ==
      var found := TopStop(source, kind, j % 16, j / 16, ScanTop(source));
      if j < n && found.Some? then found.value + 1 else HeightAt(words, source.context, j)
  {
    hide HeightAt, Store, TopStop, Source.Valid, Fits;
    Height(source);
    if n > 0 {
      PrimedColumn(words, source, kind, n - 1, j);
      var before := Primed(words, source, kind, n - 1);
      var found := TopStop(source, kind, (n - 1) % 16, (n - 1) / 16, ScanTop(source));
      if found.Some? {
        TopStopIsHighest(source, kind, (n - 1) % 16, (n - 1) / 16, ScanTop(source));
        StoreEffect(before, source.context, n - 1, found.value + 1, j);
      }
    }
  }

  /** Priming leaves every column above all that stops it: right above the highest such block, or where it was if there is none. */
  ghost predicate Settled(source: Source, kind: HeightmapKind, x: u8, z: u8, was: int, h: int)
    requires source.Valid() && x < 16 && z < 16 && source.context.MinY() <= was && source.context.MinY() <= h
  {
    var c := source.context;
    && (forall y :: h <= y < c.MaxY() ==> !StopsAt(source, kind, x, y, z))
    && if exists y :: c.MinY() <= y < c.MaxY() && StopsAt(source, kind, x, y, z) then c.MinY() < h <= c.MaxY() && StopsAt(source, kind, x, h - 1, z)
       else h == was
  }

  lemma PrimedSettles(words: seq<u64>, source: Source, kind: HeightmapKind, x: u8, z: u8)
    requires source.Valid() && Fits(words, source.context) && x < 16 && z < 16
    ensures source.context.MinY() <= HeightAt(words, source.context, ColumnOf(x, z))
    ensures source.context.MinY() <= HeightAt(Primed(words, source, kind, COLUMNS), source.context, ColumnOf(x, z))
    ensures Settled(source, kind, x, z, HeightAt(words, source.context, ColumnOf(x, z)),
                    HeightAt(Primed(words, source, kind, COLUMNS), source.context, ColumnOf(x, z)))
  {
    hide StopsAt, TopStop, Source.Valid, Primed, Fits, Column;
    Height(source);
    var j := ColumnOf(x, z);
    assert j % 16 == x && j / 16 == z;
    PrimedColumn(words, source, kind, COLUMNS, j);
    NothingAbove(source, kind, x, z, source.context.MaxY());
    TopStopIsHighest(source, kind, x, z, source.context.MaxY());
  }

  /** Primed from the bottom, the ocean floor lies nowhere above the surface that counts fluids too. */
  lemma PrimedFloorIsLower(source: Source, x: u8, z: u8)
    requires source.Valid() && x < 16 && z < 16
    ensures HeightAt(Primed(BottomWords(source.context), source, OceanFloor, COLUMNS), source.context, ColumnOf(x, z))
            <= HeightAt(Primed(BottomWords(source.context), source, MotionBlocking, COLUMNS), source.context, ColumnOf(x, z))
  {
    hide StopsAt, Source.Valid, Primed, Fits, HeightAt, BottomWords, FlagsAt, Source.State;
    Height(source);
    var words := BottomWords(source.context);
    BottomWordsAreBottom(source.context, ColumnOf(x, z));
    PrimedSettles(words, source, OceanFloor, x, z);
    PrimedSettles(words, source, MotionBlocking, x, z);
    forall y | source.context.MinY() <= y < source.context.MaxY() && StopsAt(source, OceanFloor, x, y, z)
      ensures StopsAt(source, MotionBlocking, x, y, z)
    {
      StopsMean(source, x, y, z);
    }
  }

  /** Every column of the map is the surface. */
  ghost predicate Indexes(words: seq<u64>, source: Source, kind: HeightmapKind) {
    source.Valid() && Fits(words, source.context)
    && forall x: u8, z: u8 :: x < 16 && z < 16 ==> IsSurface(source, kind, x, z, HeightAt(words, source.context, ColumnOf(x, z)))
  }

  /** A fresh map, primed, is right everywhere. */
  lemma PrimedIndexes(words: seq<u64>, source: Source, kind: HeightmapKind)
    requires source.Valid() && Fits(words, source.context) && !source.Opaque(kind, source.registry.air)
    requires forall j :: 0 <= j < COLUMNS ==> HeightAt(words, source.context, j) == source.context.MinY()
    ensures Indexes(Primed(words, source, kind, COLUMNS), source, kind)
  {
    hide HeightAt, IsSurface, TopStop, Source.Valid, Primed, Fits;
    forall x: u8, z: u8 | x < 16 && z < 16
      ensures IsSurface(source, kind, x, z, HeightAt(Primed(words, source, kind, COLUMNS), source.context, ColumnOf(x, z)))
    {
      var j := ColumnOf(x, z);
      assert j % 16 == x && j / 16 == z;
      PrimedColumn(words, source, kind, COLUMNS, j);
      PrimingFindsSurface(source, kind, x, z);
    }
  }

  function BottomWords(context: Context): (r: seq<u64>)
    requires context.Valid()
    ensures Fits(r, context)
  {
    HeightBitsFit(context);
    seq(ColumnWords(HeightBits(context)), _ => 0)
  }

  lemma BottomWordsAreBottom(context: Context, j: nat)
    requires context.Valid() && j < COLUMNS
    ensures HeightAt(BottomWords(context), context, j) == context.MinY()
  {
    HeightBitsFit(context);
    ZeroColumns(HeightBits(context), j);
  }

  /** A fresh map of this kind, primed, is right for this world. */
  ghost predicate PrimesRight(source: Source, kind: HeightmapKind)
    requires source.Valid()
  {
    Indexes(Primed(BottomWords(source.context), source, kind, COLUMNS), source, kind)
  }

  lemma FreshPrimesRight(source: Source, kind: HeightmapKind)
    requires source.Valid() && kind !in MaskOf(source.registry.states[source.registry.air])
    ensures PrimesRight(source, kind)
  {
    hide Source.Valid, MaskOf, Primed, BottomWords, HeightAt, Fits, Indexes;
    Height(source);
    forall j | 0 <= j < COLUMNS ensures HeightAt(BottomWords(source.context), source.context, j) == source.context.MinY() {
      BottomWordsAreBottom(source.context, j);
    }
    PrimedIndexes(BottomWords(source.context), source, kind);
  }

  /** Priming is right for every world of a registry exactly when plain air matches nothing. */
  lemma PrimingIsRightExactly(registry: Registry, kind: HeightmapKind)
    requires registry.air < |registry.states|
    ensures (forall source: Source :: source.Valid() && source.registry == registry ==> PrimesRight(source, kind))
            <==> kind !in MaskOf(registry.states[registry.air])
  {
    hide Source.Valid, Source.State, MaskOf, Primed, BottomWords, HeightAt, Fits, Indexes;
    if kind in MaskOf(registry.states[registry.air]) {
      AllAirPrimesWrong(EmptyWorld(registry), kind);
    } else {
      forall source: Source | source.Valid() && source.registry == registry ensures PrimesRight(source, kind) {
        FreshPrimesRight(source, kind);
      }
    }
  }

  /** A world of one missing section. */
  function EmptyWorld(registry: Registry): (source: Source)
    requires registry.air < |registry.states|
    ensures source.Valid() && source.registry == registry && source.sections == [None] && source.context == Context(0, 0, [])
  {
    Source(registry, Context(0, 0, []), [None], 0)
  }

  /** In a world of nothing but matching air priming never stops, and leaves the bottom. */
  lemma AllAirPrimesWrong(source: Source, kind: HeightmapKind)
    requires source.Valid() && source.sections == [None] && source.context == Context(0, 0, [])
    requires source.Opaque(kind, source.registry.air)
    ensures !PrimesRight(source, kind)
  {
    hide MaskOf, Primed, BottomWords, HeightAt, Fits, TopStop, Source.Valid;
    Height(source);
    var words := BottomWords(source.context);
    PrimedColumn(words, source, kind, COLUMNS, 0);
    BottomWordsAreBottom(source.context, 0);
    AirNeverStops(source, kind);
    var primed := Primed(words, source, kind, COLUMNS);
    assert HeightAt(primed, source.context, ColumnOf(0, 0)) == 0;
    assert OpaqueAt(source, kind, 0, 15, 0);
    assert !IsSurface(source, kind, 0, 0, 0);
  }

  lemma AirNeverStops(source: Source, kind: HeightmapKind)
    requires source.Valid() && source.sections == [None] && source.context == Context(0, 0, [])
    ensures ScanTop(source) == 16 && TopStop(source, kind, 0, 0, 16) == None
    ensures source.State(0, 15, 0) == source.registry.air
  {
    hide MaskOf, TopStop;
    TopStopIsHighest(source, kind, 0, 0, 16);
    assert forall y :: 0 <= y < 16 ==> source.State(0, y, 0) == source.registry.air;
  }

  // ----- edits -----

  /** What updating takes for the surface of a column after its cell at `y` became `state`. */
  ghost function NewSurface(after: Source, kind: HeightmapKind, x: u8, y: int, z: u8, state: u32, first: int): int
    requires after.Valid() && x < 16 && z < 16 && after.context.MinY() <= y < after.context.MaxY() && state < |after.registry.states|
  {
    if after.Opaque(kind, state) then (if y >= first then y + 1 else first)
    else if y == first - 1 then Below(after, kind, x, z, y)
    else first
  }

  /** One above the highest counted block below `y`, or the bottom. */
  ghost function Below(source: Source, kind: HeightmapKind, x: u8, z: u8, y: int): int
    requires source.Valid() && x < 16 && z < 16 && source.context.MinY() <= y <= source.context.MaxY()
    decreases y - source.context.MinY()
  {
    if y == source.context.MinY() then y
    else if OpaqueAt(source, kind, x, y - 1, z) then y
    else Below(source, kind, x, z, y - 1)
  }

  lemma {:induction false} BelowIsHighest(source: Source, kind: HeightmapKind, x: u8, z: u8, y: int)
    requires source.Valid() && x < 16 && z < 16 && source.context.MinY() <= y <= source.context.MaxY()
    ensures var h := Below(source, kind, x, z, y);
      && source.context.MinY() <= h <= y && (forall v :: h <= v < y ==> !OpaqueAt(source, kind, x, v, z))
      && (h > source.context.MinY() ==> OpaqueAt(source, kind, x, h - 1, z))
    decreases y - source.context.MinY()
  {
    hide OpaqueAt, Source.Valid;
    if y > source.context.MinY() && !OpaqueAt(source, kind, x, y - 1, z) {
      BelowIsHighest(source, kind, x, z, y - 1);
    }
  }

  lemma NewSurfaceIsRight(before: Source, after: Source, kind: HeightmapKind, x: u8, y: int, z: u8, state: u32, first: int)
    requires x < 16 && z < 16 && Edited(before, after, x, y, z, state) && AirIsAlike(before.registry, kind)
    requires IsSurface(before, kind, x, z, first)
    ensures IsSurface(after, kind, x, z, NewSurface(after, kind, x, y, z, state, first))
  {
    hide OpaqueAt, Source.State, AirIsAlike, MaskOf, StoredBlocks;
    forall v | before.context.MinY() <= v < before.context.MaxY()
      ensures OpaqueAt(after, kind, x, v, z) == if v == y then after.Opaque(kind, state) else OpaqueAt(before, kind, x, v, z)
    {
      EditIsLocal(before, after, x, y, z, state, kind, x, v, z);
    }
    BelowIsHighest(after, kind, x, z, y);
  }

  lemma EditedFacts(before: Source, after: Source, x: u8, y: int, z: u8, state: u32)
    requires x < 16 && z < 16 && Edited(before, after, x, y, z, state)
    ensures before.Valid() && after.Valid() && before.context == after.context && before.registry == after.registry
    ensures before.context.MinY() <= y < before.context.MaxY() && state < |after.registry.states|
    ensures after.registry.air < |after.registry.states|
  {
  }

  /** A column away from the edit keeps its surface. */
  lemma OtherColumnKept(before: Source, after: Source, kind: HeightmapKind, x: u8, y: int, z: u8, state: u32, u: u8, w: u8, h: int)
    requires x < 16 && z < 16 && u < 16 && w < 16 && (u, w) != (x, z)
    requires Edited(before, after, x, y, z, state) && AirIsAlike(before.registry, kind)
    requires IsSurface(before, kind, u, w, h)
    ensures IsSurface(after, kind, u, w, h)
  {
    hide OpaqueAt, Source.State, AirIsAlike, MaskOf, StoredBlocks;
    forall v | before.context.MinY() <= v < before.context.MaxY()
      ensures OpaqueAt(before, kind, u, v, w) == OpaqueAt(after, kind, u, v, w)
    {
      EditIsLocal(before, after, x, y, z, state, kind, u, v, w);
    }
  }

  /** The words after updating: only the edited column can move. */
  ghost function Updated(words: seq<u64>, after: Source, kind: HeightmapKind, x: u8, y: int, z: u8, state: u32): (r: seq<u64>)
    requires after.Valid() && Fits(words, after.context) && x < 16 && z < 16
    requires after.context.MinY() <= y < after.context.MaxY() && state < |after.registry.states|
    ensures Fits(r, after.context)
  {
    var first := HeightAt(words, after.context, ColumnOf(x, z));
    var surface := NewSurface(after, kind, x, y, z, state, first);
    BelowIsHighest(after, kind, x, z, y);
    if surface == first then words else Store(words, after.context, ColumnOf(x, z), surface)
  }

  /** An update moves no column but the edited one. */
  lemma UpdatedColumn(words: seq<u64>, after: Source, kind: HeightmapKind, x: u8, y: int, z: u8, state: u32, j: nat)
    requires after.Valid() && Fits(words, after.context) && x < 16 && z < 16 && j < COLUMNS
    requires after.context.MinY() <= y < after.context.MaxY() && state < |after.registry.states|
    ensures HeightAt(Updated(words, after, kind, x, y, z, state), after.context, j) ==
      if j == ColumnOf(x, z) then NewSurface(after, kind, x, y, z, state, HeightAt(words, after.context, j))
      else HeightAt(words, after.context, j)
  {
    hide HeightAt, Store, Fits, Source.Valid, Below, MaskOf;
    var first := HeightAt(words, after.context, ColumnOf(x, z));
    var surface := NewSurface(after, kind, x, y, z, state, first);
    BelowIsHighest(after, kind, x, z, y);
    if surface != first {
      StoreEffect(words, after.context, ColumnOf(x, z), surface, j);
    }
  }

  /** Updating after an edit keeps the whole map right, if kinds of air are alike. */
  lemma UpdateKeepsIndex(before: Source, after: Source, kind: HeightmapKind, words: seq<u64>, x: u8, y: int, z: u8, state: u32)
    requires x < 16 && z < 16 && Edited(before, after, x, y, z, state) && AirIsAlike(before.registry, kind)
    requires Indexes(words, before, kind)
    ensures after.Valid() && Fits(words, after.context)
    ensures after.context.MinY() <= y < after.context.MaxY() && state < |after.registry.states|
    ensures Indexes(Updated(words, after, kind, x, y, z, state), after, kind)
  {
    hide IsSurface, Source.Valid, Edited, HeightAt, NewSurface, Updated, Fits, AirIsAlike;
    EditedFacts(before, after, x, y, z, state);
    var stored := Updated(words, after, kind, x, y, z, state);
    forall u: u8, w: u8 | u < 16 && w < 16
      ensures IsSurface(after, kind, u, w, HeightAt(stored, after.context, ColumnOf(u, w)))
    {
      var first := HeightAt(words, before.context, ColumnOf(u, w));
      UpdatedColumn(words, after, kind, x, y, z, state, ColumnOf(u, w));
      if (u, w) == (x, z) {
        NewSurfaceIsRight(before, after, kind, x, y, z, state, first);
      } else {
        OtherColumnKept(before, after, kind, x, y, z, state, u, w, first);
      }
    }
  }

  // ----- when air matters -----

  /** An edit after which updating leaves the map right. */
  ghost predicate UpdatesRight(before: Source, after: Source, kind: HeightmapKind, words: seq<u64>, x: u8, y: int, z: u8, state: u32)
    requires x < 16 && z < 16 && Edited(before, after, x, y, z, state) && Indexes(words, before, kind)
  {
    EditedFacts(before, after, x, y, z, state);
    Indexes(Updated(words, after, kind, x, y, z, state), after, kind)
  }

  /** Updating is right after every edit of a registry's worlds exactly when kinds of air are alike. */
  lemma UpdateIsRightExactly(registry: Registry, kind: HeightmapKind)
    requires registry.air < |registry.states|
    ensures (forall before, after, words, x: u8, y, z: u8, state ::
               x < 16 && z < 16 && Edited(before, after, x, y, z, state) && before.registry == registry && Indexes(words, before, kind)
               ==> UpdatesRight(before, after, kind, words, x, y, z, state))
            <==> AirIsAlike(registry, kind)
  {
    hide Edited, Indexes, Updated, MaskOf, Fits;
    if AirIsAlike(registry, kind) {
      forall before, after, words, x: u8, y, z: u8, state
        | x < 16 && z < 16 && Edited(before, after, x, y, z, state) && before.registry == registry && Indexes(words, before, kind)
        ensures UpdatesRight(before, after, kind, words, x, y, z, state)
      {
        UpdateKeepsIndex(before, after, kind, words, x, y, z, state);
      }
    } else {
      var variant: u32 :| variant < |registry.states| && registry.states[variant].isAir
        && (kind in MaskOf(registry.states[variant])) != (kind in MaskOf(registry.states[registry.air]));
      if state: u32 :| state < |registry.states| && !registry.states[state].isAir {
        var before := UniformWorld(registry, variant);
        var words := UniformIndexed(before, kind);
        var after := BlockAmongVariants(registry, kind, variant, state, words);
        assert !UpdatesRight(before, after, kind, words, 0, 0, 0, state);
      } else {
        var before := UniformWorld(registry, registry.air);
        var words := UniformIndexed(before, kind);
        var after := VariantAmongAir(registry, kind, variant, words);
        assert !UpdatesRight(before, after, kind, words, 0, 15, 0, variant);
      }
    }
  }

  /** Words with every column at one height. */
  ghost function Level(context: Context, h: int, n: nat): (r: seq<u64>)
    requires context.Valid() && context.MinY() <= h <= context.MaxY() && n <= COLUMNS
    ensures Fits(r, context)
  {
    if n == 0 then BottomWords(context) else Store(Level(context, h, n - 1), context, n - 1, h)
  }

  lemma {:induction false} LevelHeight(context: Context, h: int, n: nat, j: nat)
    requires context.Valid() && context.MinY() <= h <= context.MaxY() && j < n <= COLUMNS
    ensures HeightAt(Level(context, h, n), context, j) == h
  {
    hide HeightAt, Store, Fits;
    StoreEffect(Level(context, h, n - 1), context, n - 1, h, j);
    if j < n - 1 {
      LevelHeight(context, h, n - 1, j);
    }
  }

  /** A world of one section that stores the same state everywhere and counts as empty. */
  function UniformWorld(registry: Registry, variant: u32): (source: Source)
    requires registry.air < |registry.states| && variant < |registry.states| && registry.states[variant].isAir
    ensures source.Valid() && source.registry == registry && source.context == Context(0, 0, [])
    ensures source.sections == [Some(Section(seq(4096, _ => variant), 0))]
    ensures forall x: u8, y, z: u8 :: x < 16 && z < 16 && 0 <= y < 16 ==> source.State(x, y, z) == registry.air
  {
    CountedEmpty(seq(4096, _ => variant), registry.states);
    Source(registry, Context(0, 0, []), [Some(Section(seq(4096, _ => variant), 0))], 0)
  }

  /** A level map is right for a uniform world. */
  lemma UniformIndexed(source: Source, kind: HeightmapKind) returns (words: seq<u64>)
    requires source.Valid() && source.context == Context(0, 0, [])
    requires forall x: u8, y, z: u8 :: x < 16 && z < 16 && 0 <= y < 16 ==> source.State(x, y, z) == source.registry.air
    ensures Indexes(words, source, kind)
  {
    hide HeightAt, Fits, Level, MaskOf, Source.State, Source.Valid;
    Height(source);
    var h := if source.Opaque(kind, source.registry.air) then 16 else 0;
    words := Level(source.context, h, COLUMNS);
    forall j | 0 <= j < COLUMNS ensures HeightAt(words, source.context, j) == h {
      LevelHeight(source.context, h, COLUMNS, j);
    }
  }

  /** One block stored among other air than plain air: its section is no longer counted empty, and every column changes. */
  lemma BlockAmongVariants(registry: Registry, kind: HeightmapKind, variant: u32, state: u32, words: seq<u64>) returns (after: Source)
    requires registry.air < |registry.states| && variant < |registry.states| && state < |registry.states|
    requires registry.states[variant].isAir && !registry.states[state].isAir
    requires (kind in MaskOf(registry.states[variant])) != (kind in MaskOf(registry.states[registry.air]))
    requires Indexes(words, UniformWorld(registry, variant), kind)
    ensures Edited(UniformWorld(registry, variant), after, 0, 0, 0, state)
    ensures !UpdatesRight(UniformWorld(registry, variant), after, kind, words, 0, 0, 0, state)
  {
    hide HeightAt, Fits, MaskOf, Updated;
    var before := UniformWorld(registry, variant);
    var blocks := before.sections[0].value.blocks;
    CountedEmpty(blocks, registry.states);
    CountAfterEdit(blocks, registry.states, 0, state);
    after := Source(registry, before.context, [Some(Section(blocks[0 := state], 1))], 0);
    UpdatedColumn(words, after, kind, 0, 0, 0, state, ColumnOf(5, 5));
    assert IsSurface(before, kind, 5, 5, HeightAt(words, before.context, ColumnOf(5, 5)));
    assert OpaqueAt(before, kind, 5, 15, 5) == before.Opaque(kind, registry.air);
    assert after.State(5, 15, 5) == variant;
    assert OpaqueAt(after, kind, 5, 15, 5) == after.Opaque(kind, variant);
  }

  /** In a registry of air alone a stored variant still reads as plain air, which the update does not see. */
  lemma VariantAmongAir(registry: Registry, kind: HeightmapKind, variant: u32, words: seq<u64>) returns (after: Source)
    requires registry.air < |registry.states| && variant < |registry.states|
    requires forall state: u32 :: state < |registry.states| ==> registry.states[state].isAir
    requires (kind in MaskOf(registry.states[variant])) != (kind in MaskOf(registry.states[registry.air]))
    requires Indexes(words, UniformWorld(registry, registry.air), kind)
    ensures Edited(UniformWorld(registry, registry.air), after, 0, 15, 0, variant)
    ensures !UpdatesRight(UniformWorld(registry, registry.air), after, kind, words, 0, 15, 0, variant)
  {
    hide HeightAt, Fits, MaskOf, Updated;
    var before := UniformWorld(registry, registry.air);
    var blocks := before.sections[0].value.blocks;
    var cell := 256 * 15;
    CountedEmpty(blocks[cell := variant], registry.states);
    after := Source(registry, before.context, [Some(Section(blocks[cell := variant], 0))], 0);
    UpdatedColumn(words, after, kind, 0, 15, 0, variant, ColumnOf(0, 0));
    assert IsSurface(before, kind, 0, 0, HeightAt(words, before.context, ColumnOf(0, 0)));
    assert OpaqueAt(before, kind, 0, 15, 0) == OpaqueAt(after, kind, 0, 15, 0) == after.Opaque(kind, registry.air);
    assert OpaqueAt(after, kind, 0, 14, 0) == after.Opaque(kind, registry.air);
  }

  // ----- whole histories -----

  datatype CellEdit = CellEdit(x: u8, y: int, z: u8, state: u32)

  /** Worlds that each follow from the one before by one stored edit. */
  ghost predicate History(worlds: seq<Source>, edits: seq<CellEdit>) {
    && |worlds| == |edits| + 1 && worlds[0].Valid()
    && forall i :: 0 <= i < |edits| ==>
         edits[i].x < 16 && edits[i].z < 16 && Edited(worlds[i], worlds[i + 1], edits[i].x, edits[i].y, edits[i].z, edits[i].state)
  }

  lemma HistoryPrefix(worlds: seq<Source>, edits: seq<CellEdit>)
    requires History(worlds, edits) && edits != []
    ensures History(worlds[..|edits|], edits[..|edits| - 1])
  {
    hide Edited, Source.Valid;
  }

  /** The words of a fresh map, primed at the start and updated after every edit. */
  ghost function Maintained(worlds: seq<Source>, edits: seq<CellEdit>, kind: HeightmapKind): (r: seq<u64>)
    requires History(worlds, edits)
    ensures worlds[|edits|].Valid() && worlds[|edits|].registry == worlds[0].registry
    ensures Fits(r, worlds[|edits|].context)
    decreases |edits|
  {
    if edits == [] then Primed(BottomWords(worlds[0].context), worlds[0], kind, COLUMNS)
    else
      var n := |edits| - 1;
      var e := edits[n];
      HistoryPrefix(worlds, edits);
      EditedFacts(worlds[n], worlds[n + 1], e.x, e.y, e.z, e.state);
      Updated(Maintained(worlds[..n + 1], edits[..n], kind), worlds[n + 1], kind, e.x, e.y, e.z, e.state)
  }

  /** No kind of air matches the map. */
  predicate AirIsClear(registry: Registry, kind: HeightmapKind)
    requires registry.air < |registry.states|
  {
    kind !in MaskOf(registry.states[registry.air]) && AirIsAlike(registry, kind)
  }

  /** A maintained map is right after any history, if no kind of air matches it. */
  lemma {:induction false} HistoryIsRight(worlds: seq<Source>, edits: seq<CellEdit>, kind: HeightmapKind)
    requires History(worlds, edits) && worlds[0].registry.air < |worlds[0].registry.states| && AirIsClear(worlds[0].registry, kind)
    ensures worlds[|edits|].Valid() && Indexes(Maintained(worlds, edits, kind), worlds[|edits|], kind)
    decreases |edits|
  {
    hide Edited, Indexes, Source.Valid, Primed, Updated, MaskOf, AirIsAlike;
    if edits == [] {
      FreshPrimesRight(worlds[0], kind);
    } else {
      var n := |edits| - 1;
      var e := edits[n];
      HistoryPrefix(worlds, edits);
      HistoryIsRight(worlds[..n + 1], edits[..n], kind);
      EditedFacts(worlds[n], worlds[n + 1], e.x, e.y, e.z, e.state);
      UpdateKeepsIndex(worlds[n], worlds[n + 1], kind, Maintained(worlds[..n + 1], edits[..n], kind), e.x, e.y, e.z, e.state);
    }
  }

  /** Every maintained map is right after every history of a registry's worlds exactly when no kind of air matches it. */
  lemma HistoryIsRightExactly(registry: Registry, kind: HeightmapKind)
    requires registry.air < |registry.states|
    ensures (forall worlds: seq<Source>, edits: seq<CellEdit> :: History(worlds, edits) && worlds[0].registry == registry ==> EndsRight(worlds, edits, kind))
            <==> AirIsClear(registry, kind)
  {
    hide Edited, Indexes, Source.Valid, Primed, MaskOf, Maintained;
    if AirIsClear(registry, kind) {
      forall worlds: seq<Source>, edits: seq<CellEdit> | History(worlds, edits) && worlds[0].registry == registry ensures EndsRight(worlds, edits, kind) {
        HistoryIsRight(worlds, edits, kind);
      }
    } else if kind in MaskOf(registry.states[registry.air]) {
      var world := EmptyWorld(registry);
      AllAirPrimesWrong(world, kind);
      StartOfHistory(world, kind);
      assert History([world], []);
    } else {
      var worlds, edits := HistoryGoneWrong(registry, kind);
      assert !EndsRight(worlds, edits, kind);
    }
  }

  ghost predicate EndsRight(worlds: seq<Source>, edits: seq<CellEdit>, kind: HeightmapKind)
    requires History(worlds, edits)
  {
    Indexes(Maintained(worlds, edits, kind), worlds[|edits|], kind)
  }

  lemma StartOfHistory(world: Source, kind: HeightmapKind)
    requires world.Valid()
    ensures History([world], []) && (EndsRight([world], [], kind) <==> PrimesRight(world, kind))
  {
    hide Indexes, Source.Valid, Primed;
  }

  /** Clear plain air, but a kind of air that matches: one edit is enough. */
  lemma HistoryGoneWrong(registry: Registry, kind: HeightmapKind) returns (worlds: seq<Source>, edits: seq<CellEdit>)
    requires registry.air < |registry.states| && kind !in MaskOf(registry.states[registry.air]) && !AirIsAlike(registry, kind)
    ensures History(worlds, edits) && worlds[0].registry == registry && !EndsRight(worlds, edits, kind)
  {
    hide Edited, Indexes, Source.Valid, Primed, MaskOf, Updated;
    var variant: u32 :| variant < |registry.states| && registry.states[variant].isAir
      && (kind in MaskOf(registry.states[variant])) != (kind in MaskOf(registry.states[registry.air]));
    var before: Source, after: Source, e: CellEdit;
    if state: u32 :| state < |registry.states| && !registry.states[state].isAir {
      before, e := UniformWorld(registry, variant), CellEdit(0, 0, 0, state);
      FreshPrimesRight(before, kind);
      after := BlockAmongVariants(registry, kind, variant, state, Primed(BottomWords(before.context), before, kind, COLUMNS));
    } else {
      before, e := UniformWorld(registry, registry.air), CellEdit(0, 15, 0, variant);
      FreshPrimesRight(before, kind);
      after := VariantAmongAir(registry, kind, variant, Primed(BottomWords(before.context), before, kind, COLUMNS));
    }
    worlds, edits := [before, after], [e];
    assert worlds[..1] == [before] && edits[..0] == [];
    StartOfHistory(before, kind);
  }
}
