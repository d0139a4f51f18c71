/** The mutable maps: reading, priming, restoring and updating them, alone and as a stored set. */
module HeightmapStore {
  import opened World
  import opened PackedWords
  import opened HeightColumns
  import opened HeightSource
  import opened Heightmap

  datatype RestoreOutcome = Restored | Reprimed

  datatype HeightmapOrigin = FromStorage | Replaced | MissingPrimed

  function RequiredBytes(context: Context): nat
    requires context.Valid()
  {
    HeightBitsFit(context);
    ColumnWords(HeightBits(context)) * 8
  }

  /** Walks one column down to the first stopping block. */
  method FindTop(source: Source, kind: HeightmapKind, x: u8, z: u8) returns (r: Option<int>)
    requires source.Valid() && x < 16 && z < 16
    ensures source.context.MinY() <= ScanTop(source) <= source.context.MaxY()
    ensures r == TopStop(source, kind, x, z, ScanTop(source))
    ensures r.Some? ==> source.context.MinY() <= r.value < source.context.MaxY()
  {
    hide Source.Valid, Source.State, MaskOf;
    Height(source);
    for y := ScanTop(source) downto source.context.MinY()
      invariant TopStop(source, kind, x, z, ScanTop(source)) == TopStop(source, kind, x, z, y)
    {
      StateKnown(source, x, y, z);
      var state := source.State(x, y, z);
      if state != source.registry.air && source.Opaque(kind, state) {
        return Some(y);
      }
    }
    r := None;
  }

  /** Walks down from below `y` to the next counted block. */
  method FindBelow(source: Source, kind: HeightmapKind, x: u8, z: u8, y: int) returns (r: int)
    requires source.Valid() && x < 16 && z < 16 && source.context.MinY() <= y <= source.context.MaxY()
    ensures r == Below(source, kind, x, z, y)
  {
    hide Source.Valid, Source.State, MaskOf;
    for lower := y downto source.context.MinY()
      invariant Below(source, kind, x, z, y) == Below(source, kind, x, z, lower)
    {
      StateKnown(source, x, lower, z);
      if source.Opaque(kind, source.State(x, lower, z)) {
        return lower + 1;
      }
    }
    r := source.context.MinY();
  }

  class StoredHeightmap {
    const kind: HeightmapKind
    const context: Context
    var words: seq<u64>

    constructor (kind: HeightmapKind, context: Context, words: seq<u64>)
      requires Fits(words, context)
      ensures this.kind == kind && this.context == context && this.words == words && Valid()
    {
      this.kind, this.context, this.words := kind, context, words;
    }

    ghost predicate Valid()
      reads `words
    {
      Fits(words, context)
    }

    /** A fresh map, every column at the bottom, if its words fit the allowance. */
    static method New(kind: HeightmapKind, source: Source, limit: nat) returns (r: Result<StoredHeightmap, HeightmapError>)
      requires source.Valid()
      ensures r.Ok? <==> RequiredBytes(source.context) <= limit
      ensures r.Err? ==> r.error == AllocationLimit
      ensures r.Ok? ==> fresh(r.value) && r.value.Valid() && r.value.kind == kind && r.value.context == source.context
                        && r.value.words == BottomWords(source.context)
      ensures r.Ok? ==> forall j :: 0 <= j < COLUMNS ==> HeightAt(r.value.words, source.context, j) == source.context.MinY()
    {
      if RequiredBytes(source.context) > limit {
        return Err(AllocationLimit);
      }
      forall j | 0 <= j < COLUMNS ensures HeightAt(BottomWords(source.context), source.context, j) == source.context.MinY() {
        BottomWordsAreBottom(source.context, j);
      }
      var created := new StoredHeightmap(kind, source.context, BottomWords(source.context));
      r := Ok(created);
    }

    /** One above the highest counted block, as stored. */
    method FirstAvailable(x: u8, z: u8) returns (r: Result<int, HeightmapError>)
      requires Valid()
      ensures r == if x < 16 && z < 16 then Ok(HeightAt(words, context, ColumnOf(x, z))) else Err(InvalidColumn)
    {
      if x >= 16 || z >= 16 {
        return Err(InvalidColumn);
      }
      r := Ok(HeightAt(words, context, ColumnOf(x, z)));
    }

    /** The column reads the height stored in it; every other column reads as before. */
    method Set(index: nat, first: int)
      requires Valid() && index < COLUMNS && context.MinY() <= first <= context.MaxY()
      modifies `words
      ensures Valid() && words == Store(old(words), context, index, first)
      ensures forall j :: 0 <= j < COLUMNS ==>
        HeightAt(words, context, j) == if j == index then first else HeightAt(old(words), context, j)
    {
      hide HeightAt, Store, Fits;
      forall j | 0 <= j < COLUMNS
        ensures HeightAt(Store(words, context, index, first), context, j) == if j == index then first else HeightAt(words, context, j)
      {
        StoreEffect(words, context, index, first, j);
      }
      words := Store(words, context, index, first);
    }

    /** Sets every column in which something stops; a column of nothing keeps what it had. */
    method Prime(source: Source) returns (r: Result<(), HeightmapError>)
      requires Valid() && source.Valid()
      modifies `words
      ensures Valid()
      ensures context != source.context ==> r == Err(ContextMismatch) && words == old(words)
      ensures context == source.context ==> r == Ok(()) && words == Primed(old(words), source, kind, COLUMNS)
      ensures context == source.context ==> forall x: u8, z: u8 :: x < 16 && z < 16 ==>
        && context.MinY() <= HeightAt(old(words), context, ColumnOf(x, z)) && context.MinY() <= HeightAt(words, context, ColumnOf(x, z))
        && Settled(source, kind, x, z, HeightAt(old(words), context, ColumnOf(x, z)), HeightAt(words, context, ColumnOf(x, z)))
    {
      hide Source.Valid, Source.State, Fits, TopStop, Store, Settled, HeightAt;
      if context != source.context {
        return Err(ContextMismatch);
      }
      forall x: u8, z: u8 | x < 16 && z < 16
        ensures var was, h := HeightAt(words, context, ColumnOf(x, z)), HeightAt(Primed(words, source, kind, COLUMNS), context, ColumnOf(x, z));
          context.MinY() <= was && context.MinY() <= h && Settled(source, kind, x, z, was, h)
      {
        PrimedSettles(words, source, kind, x, z);
      }
      for index := 0 to COLUMNS
        invariant Valid() && words == Primed(old(words), source, kind, index)
      {
        var top := FindTop(source, kind, index % 16, index / 16);
        if top.Some? {
          Set(index, top.value + 1);
        }
      }
      r := Ok(());
    }

    /** Takes stored words of the right length bit for bit; otherwise primes over what is there. */
    method Restore(raw: seq<u64>, source: Source) returns (r: Result<RestoreOutcome, HeightmapError>)
      requires Valid() && source.Valid()
      modifies `words
      ensures Valid()
      ensures context != source.context ==> r == Err(ContextMismatch) && words == old(words)
      ensures context == source.context && |raw| == |old(words)| ==> r == Ok(Restored) && words == raw
      ensures context == source.context && |raw| != |old(words)| ==> r == Ok(Reprimed) && words == Primed(old(words), source, kind, COLUMNS)
    {
      if context != source.context {
        return Err(ContextMismatch);
      }
      if |raw| == |words| {
        words := raw;
        return Ok(Restored);
      }
      var primed := Prime(source);
      r := Ok(Reprimed);
    }

    /**
     After one cell became `state`: the result says whether the edited column moved, no other
     column does, and a map that was right before the edit is right after it unless the map
     tells kinds of air apart.
     */
    method Update(x: u8, y: int, z: u8, state: u32, source: Source, ghost before: Source) returns (r: Result<bool, HeightmapError>)
      requires Valid() && source.Valid()
      modifies `words
      ensures Valid() && (r.Err? ==> words == old(words))
      ensures context != source.context ==> r == Err(ContextMismatch)
      ensures context == source.context ==>
        if !(x < 16 && z < 16) then r == Err(InvalidColumn)
        else if !(context.MinY() <= y < context.MaxY()) then r == Err(InvalidY)
        else if state >= |source.registry.states| then r == Err(InvalidState(state))
        else
          && words == Updated(old(words), source, kind, x, y, z, state)
          && var first := HeightAt(old(words), context, ColumnOf(x, z));
             r == Ok(NewSurface(source, kind, x, y, z, state, first) != first)
      ensures (r.Ok? && x < 16 && z < 16 && Edited(before, source, x, y, z, state)
               && source.registry.air < |source.registry.states| && AirIsAlike(source.registry, kind) && Indexes(old(words), before, kind))
              ==> Indexes(words, source, kind)
    {
      hide Source.Valid, Source.State, MaskOf, Fits, Store, HeightAt, Edited, Indexes, OpaqueAt, Below, Primed, AirIsAlike;
      if context != source.context {
        return Err(ContextMismatch);
      }
      if x >= 16 || z >= 16 {
        return Err(InvalidColumn);
      }
      if !(source.context.MinY() <= y < source.context.MaxY()) {
        return Err(InvalidY);
      }
      if state >= |source.registry.states| {
        return Err(InvalidState(state));
      }
      Height(source);
      if Edited(before, source, x, y, z, state) && AirIsAlike(source.registry, kind) && Indexes(words, before, kind) {
        EditedFacts(before, source, x, y, z, state);
        UpdateKeepsIndex(before, source, kind, words, x, y, z, state);
      }
      BelowIsHighest(source, kind, x, z, y);
      var first := HeightAt(words, context, ColumnOf(x, z));
      if y <= first - 2 {
        return Ok(false);
      }
      if source.Opaque(kind, state) {
        if y < first {
          return Ok(false);
        }
        Set(ColumnOf(x, z), y + 1);
        return Ok(true);
      }
      if y != first - 1 {
        return Ok(false);
      }
      var next := FindBelow(source, kind, x, z, y);
      Set(ColumnOf(x, z), next);
      r := Ok(true);
    }
  }

  // ----- the stored set -----

  const ALL: seq<HeightmapKind> := [WorldSurfaceWg, WorldSurface, OceanFloorWg, OceanFloor, MotionBlocking, MotionBlockingNoLeaves]

  lemma AllKinds(kind: HeightmapKind)
    ensures kind in ALL
  {
    match kind
    case WorldSurfaceWg => assert ALL[0] == kind;
    case WorldSurface => assert ALL[1] == kind;
    case OceanFloorWg => assert ALL[2] == kind;
    case OceanFloor => assert ALL[3] == kind;
    case MotionBlocking => assert ALL[4] == kind;
    case MotionBlockingNoLeaves => assert ALL[5] == kind;
  }

  /** One map per kind, all for the same world. */
  ghost predicate MapsOk(maps: map<HeightmapKind, StoredHeightmap>, source: Source)
    reads set kind | kind in maps :: maps[kind]
  {
    && (forall kind :: kind in maps ==> maps[kind].kind == kind && maps[kind].context == source.context && maps[kind].Valid())
    && (forall j, k :: j in maps && k in maps && j != k ==> maps[j] != maps[k])
  }

  /** Stores one height in each of the found maps. */
  method StoreFound(maps: map<HeightmapKind, StoredHeightmap>, found: set<HeightmapKind>, source: Source, index: nat, first: int)
    requires MapsOk(maps, source) && found <= maps.Keys && index < COLUMNS && source.context.MinY() <= first <= source.context.MaxY()
    modifies set kind | kind in maps :: maps[kind]
    ensures MapsOk(maps, source)
    ensures forall kind :: kind in maps ==>
      maps[kind].words == if kind in found then Store(old(maps[kind].words), source.context, index, first) else old(maps[kind].words)
  {
    hide Store, Fits;
    for i := 0 to |ALL|
      invariant MapsOk(maps, source)
      invariant forall kind :: kind in maps ==>
        maps[kind].words == if kind in found && kind in ALL[..i] then Store(old(maps[kind].words), source.context, index, first) else old(maps[kind].words)
    {
      var kind := ALL[i];
      KindsDiffer(i);
      if kind in found {
        maps[kind].Set(index, first);
      }
    }
    forall kind | kind in found ensures kind in ALL[..|ALL|] {
      AllKinds(kind);
      assert ALL[..|ALL|] == ALL;
    }
  }

  lemma KindsDiffer(i: nat)
    requires i < |ALL|
    ensures ALL[i] !in ALL[..i] && ALL[..i + 1] == ALL[..i] + [ALL[i]]
  {
  }

  /** Primes the chosen maps in one walk of each column: the same words as priming each alone. */
  method PrimeTogether(maps: map<HeightmapKind, StoredHeightmap>, toPrime: set<HeightmapKind>, source: Source)
    requires source.Valid() && MapsOk(maps, source) && toPrime <= maps.Keys
    modifies set kind | kind in maps :: maps[kind]
    ensures MapsOk(maps, source)
    ensures forall kind :: kind in maps ==>
      maps[kind].words == if kind in toPrime then Primed(old(maps[kind].words), source, kind, COLUMNS) else old(maps[kind].words)
  {
    hide Source.Valid, Source.State, Fits, TopStop, Store, StoredHeightmap.Valid;
    MapsFit(maps, source);
    for index := 0 to COLUMNS
      invariant MapsOk(maps, source)
      invariant forall kind :: kind in maps ==>
        maps[kind].words == if kind in toPrime then Primed(old(maps[kind].words), source, kind, index) else old(maps[kind].words)
    {
      if toPrime == {} {
        break;
      }
      PrimeColumnOf(maps, toPrime, source, index);
    }
  }

  lemma MapsFit(maps: map<HeightmapKind, StoredHeightmap>, source: Source)
    requires MapsOk(maps, source)
    ensures forall kind :: kind in maps ==> Fits(maps[kind].words, source.context)
  {
  }

  /** One step down: the kinds a state stops, and the rest of the walk for the others. */
  lemma StopStep(source: Source, x: u8, z: u8, y: int)
    requires source.Valid() && x < 16 && z < 16 && source.context.MinY() <= y < source.context.MaxY()
    ensures var state := source.State(x, y, z);
      state < |source.registry.states| && source.registry.air < |source.registry.states|
      && forall kind :: TopStop(source, kind, x, z, y + 1) ==
           if state != source.registry.air && kind in MaskOf(source.registry.states[state]) then Some(y) else TopStop(source, kind, x, z, y)
  {
    hide MaskOf, Source.State, Source.Valid;
    StateKnown(source, x, y, z);
    Height(source);
  }

  lemma WalkDone(source: Source, x: u8, z: u8)
    requires source.Valid() && x < 16 && z < 16
    ensures forall kind :: TopStop(source, kind, x, z, source.context.MinY()) == None
  {
    hide Source.Valid;
    Height(source);
  }

  /** One column for all chosen maps: each takes the first block that stops it. */
  method PrimeColumnOf(maps: map<HeightmapKind, StoredHeightmap>, toPrime: set<HeightmapKind>, source: Source, index: nat)
    requires source.Valid() && MapsOk(maps, source) && toPrime <= maps.Keys && index < COLUMNS
    modifies set kind | kind in maps :: maps[kind]
    ensures MapsOk(maps, source)
    ensures forall kind :: kind in maps ==> Fits(old(maps[kind].words), source.context)
    ensures forall kind :: kind in maps ==>
      maps[kind].words == if kind in toPrime then PrimeColumn(old(maps[kind].words), source, kind, index) else old(maps[kind].words)
  {
    hide Source.Valid, Source.State, Fits, TopStop, Store, MaskOf, StoredHeightmap.Valid;
    MapsFit(maps, source);
    Height(source);
    var x, z := index % 16, index / 16;
    WalkDone(source, x, z);
    var unresolved := toPrime;
    var y := ScanTop(source);
    while y > source.context.MinY() && unresolved != {}
      invariant source.context.MinY() <= y <= ScanTop(source)
      invariant MapsOk(maps, source) && unresolved <= toPrime
      invariant forall kind :: kind in unresolved ==>
        maps[kind].words == old(maps[kind].words) && TopStop(source, kind, x, z, ScanTop(source)) == TopStop(source, kind, x, z, y)
      invariant forall kind :: kind in maps && kind !in toPrime ==> maps[kind].words == old(maps[kind].words)
      invariant forall kind :: kind in toPrime && kind !in unresolved ==>
        maps[kind].words == PrimeColumn(old(maps[kind].words), source, kind, index)
    {
      y := y - 1;
      StopStep(source, x, z, y);
      var state := source.State(x, y, z);
      if state != source.registry.air {
        var found := MaskOf(source.registry.states[state]) * unresolved;
        StoreFound(maps, found, source, index, y + 1);
        unresolved := unresolved - found;
      }
    }
  }

  datatype HeightmapSet = HeightmapSet(maps: map<HeightmapKind, StoredHeightmap>, origins: map<HeightmapKind, HeightmapOrigin>)

  /** Long-array elements as raw words. */
  function AsWords(values: seq<i64>): (r: seq<u64>)
    ensures |r| == |values|
  {
    seq(|values|, i requires 0 <= i < |values| => if values[i] < 0 then values[i] + TWO_64 else values[i])
  }

  /** A stored array is taken only if it has exactly the map's words. */
  predicate Restorable(arrays: map<HeightmapKind, seq<i64>>, kind: HeightmapKind, context: Context)
    requires context.Valid()
  {
    kind in arrays && |arrays[kind]| == |BottomWords(context)|
  }

  function StartingWords(arrays: map<HeightmapKind, seq<i64>>, kind: HeightmapKind, context: Context): (r: seq<u64>)
    requires context.Valid()
    ensures Fits(r, context)
  {
    if Restorable(arrays, kind, context) then AsWords(arrays[kind]) else BottomWords(context)
  }

  function OriginOf(arrays: map<HeightmapKind, seq<i64>>, kind: HeightmapKind, context: Context): HeightmapOrigin
    requires context.Valid()
  {
    if Restorable(arrays, kind, context) then FromStorage else if kind in arrays then Replaced else MissingPrimed
  }

  /**
   Stored arrays of the right length are kept bit for bit; every other selected map is what
   priming a fresh one alone would give, from one shared walk. The allowance is decided up front.
   */
  method FromStored(source: Source, arrays: map<HeightmapKind, seq<i64>>, required: set<HeightmapKind>, limit: nat)
      returns (r: Result<HeightmapSet, HeightmapError>)
    requires source.Valid()
    ensures r.Err? ==> r.error == AllocationLimit
    ensures r.Ok? <==> Bytes(RequiredBytes(source.context), |required + arrays.Keys|) <= limit
    ensures r.Ok? ==> r.value.maps.Keys == required + arrays.Keys
    ensures r.Ok? ==> r.value.origins.Keys == required + arrays.Keys
    ensures r.Ok? ==> MapsOk(r.value.maps, source)
    ensures r.Ok? ==> forall kind :: kind in r.value.maps ==>
      && r.value.origins[kind] == OriginOf(arrays, kind, source.context)
      && (Restorable(arrays, kind, source.context) ==> kind in arrays && r.value.maps[kind].words == AsWords(arrays[kind]))
      && (!Restorable(arrays, kind, source.context) ==>
            r.value.maps[kind].words == Primed(BottomWords(source.context), source, kind, COLUMNS))
  {
    hide *;
    Height(source);
    var context := source.context;
    var selected := required + arrays.Keys;
    if Bytes(RequiredBytes(context), |selected|) > limit {
      return Err(AllocationLimit);
    }
    var maps, origins, toPrime := OpenAll(source, arrays, selected, limit);
    OpenedFacts(maps, origins, toPrime, arrays, source);
    PrimeTogether(maps, toPrime, source);
    forall kind | kind in maps
      ensures Restorable(arrays, kind, context) ==> kind in arrays && maps[kind].words == AsWords(arrays[kind])
      ensures !Restorable(arrays, kind, context) ==> maps[kind].words == Primed(BottomWords(context), source, kind, COLUMNS)
    {
      Started(arrays, kind, context);
    }
    r := Ok(HeightmapSet(maps, origins));
  }

  /** Opens every selected map; those without fitting stored words are left to be primed. */
  method OpenAll(source: Source, arrays: map<HeightmapKind, seq<i64>>, selected: set<HeightmapKind>, limit: nat)
      returns (maps: map<HeightmapKind, StoredHeightmap>, origins: map<HeightmapKind, HeightmapOrigin>, toPrime: set<HeightmapKind>)
    requires source.Valid() && source.context.Valid() && Bytes(RequiredBytes(source.context), |selected|) <= limit
    ensures maps.Keys == selected && Opened(maps, origins, toPrime, arrays, source)
    ensures forall kind :: kind in maps ==> fresh(maps[kind])
  {
    hide *;
    var each := RequiredBytes(source.context);
    maps, origins, toPrime := map[], map[], {};
    var remaining: int := limit;
    NoMaps(arrays, source);
    NoBytes(each);
    for i := 0 to |ALL|
      invariant forall kind :: kind in maps ==> fresh(maps[kind])
      invariant Opened(maps, origins, toPrime, arrays, source)
      invariant forall kind :: kind in maps.Keys <==> kind in selected && kind in ALL[..i]
      invariant remaining == limit - Bytes(each, |maps.Keys|)
    {
      var kind := ALL[i];
      KindsDiffer(i);
      if kind in selected {
        StillAffordable(maps.Keys, kind, selected, each);
        var created, restored := Open(kind, source, arrays, remaining);
        remaining := remaining - each;
        ghost var before := maps.Keys;
        OpenedStep(maps, origins, toPrime, arrays, source, kind, created);
        maps, origins := maps[kind := created], origins[kind := OriginOf(arrays, kind, source.context)];
        if !restored {
          toPrime := toPrime + {kind};
        }
        assert maps.Keys == before + {kind};
      }
    }
    forall kind ensures kind in ALL[..|ALL|] {
      AllKinds(kind);
      assert ALL[..|ALL|] == ALL;
    }
    assert maps.Keys == selected;
  }

  lemma Started(arrays: map<HeightmapKind, seq<i64>>, kind: HeightmapKind, context: Context)
    requires context.Valid()
    ensures Restorable(arrays, kind, context) ==> kind in arrays && StartingWords(arrays, kind, context) == AsWords(arrays[kind])
    ensures !Restorable(arrays, kind, context) ==> StartingWords(arrays, kind, context) == BottomWords(context)
  {
  }

  lemma MapAdded(maps: map<HeightmapKind, StoredHeightmap>, kind: HeightmapKind, created: StoredHeightmap, source: Source)
    requires MapsOk(maps, source) && created.kind == kind && created.context == source.context && created.Valid()
    requires kind !in maps && forall k :: k in maps ==> maps[k] != created
    ensures MapsOk(maps[kind := created], source)
  {
  }

  /** Maps opened so far: their words, origins, and which are still to be primed. */
  ghost predicate Opened(maps: map<HeightmapKind, StoredHeightmap>, origins: map<HeightmapKind, HeightmapOrigin>, toPrime: set<HeightmapKind>,
                         arrays: map<HeightmapKind, seq<i64>>, source: Source)
    requires source.context.Valid()
    reads set kind | kind in maps :: maps[kind]
  {
    && MapsOk(maps, source) && maps.Keys == origins.Keys
    && (forall kind :: kind in toPrime <==> kind in maps && !Restorable(arrays, kind, source.context))
    && (forall kind :: kind in maps ==>
          maps[kind].words == StartingWords(arrays, kind, source.context) && origins[kind] == OriginOf(arrays, kind, source.context))
  }

  lemma OpenedStep(maps: map<HeightmapKind, StoredHeightmap>, origins: map<HeightmapKind, HeightmapOrigin>, toPrime: set<HeightmapKind>,
                   arrays: map<HeightmapKind, seq<i64>>, source: Source, kind: HeightmapKind, created: StoredHeightmap)
    requires source.context.Valid() && Opened(maps, origins, toPrime, arrays, source) && kind !in maps
    requires created.kind == kind && created.context == source.context && created.Valid() && forall k :: k in maps ==> maps[k] != created
    requires created.words == StartingWords(arrays, kind, source.context)
    ensures Opened(maps[kind := created], origins[kind := OriginOf(arrays, kind, source.context)],
                   if Restorable(arrays, kind, source.context) then toPrime else toPrime + {kind}, arrays, source)
  {
    hide Restorable, OriginOf, StartingWords, StoredHeightmap.Valid, MapsOk;
    MapAdded(maps, kind, created, source);
  }

  lemma OpenedFacts(maps: map<HeightmapKind, StoredHeightmap>, origins: map<HeightmapKind, HeightmapOrigin>, toPrime: set<HeightmapKind>,
                    arrays: map<HeightmapKind, seq<i64>>, source: Source)
    requires source.context.Valid() && Opened(maps, origins, toPrime, arrays, source)
    ensures MapsOk(maps, source) && maps.Keys == origins.Keys
    ensures forall kind :: kind in toPrime <==> kind in maps && !Restorable(arrays, kind, source.context)
    ensures forall kind :: kind in maps ==>
      maps[kind].words == StartingWords(arrays, kind, source.context) && origins[kind] == OriginOf(arrays, kind, source.context)
  {
    hide Restorable, OriginOf, StartingWords;
  }

  lemma NoMaps(arrays: map<HeightmapKind, seq<i64>>, source: Source)
    requires source.context.Valid()
    ensures Opened(map[], map[], {}, arrays, source)
  {
  }

  lemma NoBytes(each: nat)
    ensures Bytes(each, 0) == 0
  {
  }

  function Bytes(each: nat, count: nat): nat {
    each * count
  }

  /** A selected map: its stored words if they fit, else bottom words still to be primed. */
  method Open(kind: HeightmapKind, source: Source, arrays: map<HeightmapKind, seq<i64>>, remaining: nat)
      returns (created: StoredHeightmap, restored: bool)
    requires source.Valid() && source.context.Valid() && RequiredBytes(source.context) <= remaining
    ensures fresh(created) && created.kind == kind && created.context == source.context && created.Valid()
    ensures restored == Restorable(arrays, kind, source.context) && created.words == StartingWords(arrays, kind, source.context)
  {
    hide Source.Valid;
    var bottom := StoredHeightmap.New(kind, source, remaining);
    created, restored := bottom.value, Restorable(arrays, kind, source.context);
    if restored {
      created.words := AsWords(arrays[kind]);
    }
  }

  lemma StillAffordable(done: set<HeightmapKind>, kind: HeightmapKind, selected: set<HeightmapKind>, each: nat)
    requires done <= selected && kind in selected && kind !in done
    ensures Bytes(each, |done|) + each <= Bytes(each, |selected|)
    ensures Bytes(each, |done + {kind}|) == Bytes(each, |done|) + each
  {
    var rest := selected - done - {kind};
    assert selected == done + {kind} + rest;
    MulMonotone(each, |done| + 1, |selected|);
  }
}
