/**
 Paletted section storage. A container is a single value, a palette with packed keys, or
 packed registry IDs; whichever it is, it shows one dense array of cells.
 */
module Paletted {
  import opened World
  import opened Wire
  import opened PackedWords
  import opened Palette

  datatype SectionError =
    | InvalidLength(expected: nat, actual: nat)
    | OutOfBounds
    | OutOfRange(value: u32)
    | InvalidBits(bits: nat)
    | InvalidPaletteLength(count: i32)
    | InvalidPaletteIndex(key: u32)
    | InvalidCounts
    | Truncated
    | InvalidVarInt
    | AllocationBudgetExceeded
    | OutputCapacity

  /** Registry IDs are contiguous from zero; a registry is its size. */
  type Registry = n: int | 1 <= n <= 0x8000_0000 witness 1

  function RegistryBits(registry: Registry): (r: nat) {
    BitLength(registry - 1)
  }

  datatype Kind = Blocks | Biomes {
    function Len(): nat {
      if Blocks? then 4096 else 64
    }

    function MinBits(): nat {
      if Blocks? then 4 else 1
    }

    function MaxBits(): nat {
      if Blocks? then 8 else 3
    }

    function NormalizedBits(bits: nat, registry: Registry): nat {
      if bits == 0 then 0
      else if bits <= MaxBits() then if bits < MinBits() then MinBits() else bits
      else RegistryBits(registry)
    }
  }

  datatype Storage = Single(value: u32) | Indirect(palette: seq<u32>, keys: Packed) | Direct(ids: Packed)

  datatype PalettedContainer = PalettedContainer(kind: Kind, registry: Registry, storage: Storage) {
    function Bits(): nat {
      match storage
      case Single(_) => 0
      case Indirect(_, keys) => keys.bits
      case Direct(ids) => ids.bits
    }

    /** Backing bytes: palettes are allocated for every key of their width. */
    function HeapBytes(): nat {
      match storage
      case Single(_) => 0
      case Indirect(_, keys) => Pow(2, keys.bits) * 4 + |keys.words| * 8
      case Direct(ids) => |ids.words| * 8
    }

    /** The container shows exactly these cells. */
    ghost predicate Shows(dense: seq<u32>) {
      |dense| == kind.Len() && (forall i :: 0 <= i < |dense| ==> dense[i] < registry) &&
      match storage
      case Single(value) => forall i :: 0 <= i < |dense| ==> dense[i] == value
      case Indirect(palette, keys) =>
        && kind.MinBits() <= keys.bits <= kind.MaxBits() && 1 <= |palette| <= Pow(2, keys.bits)
        && (forall id :: id in palette ==> id < registry)
        && keys.len == kind.Len() && exists k :: IsKeyed(palette, keys, k, dense)
      case Direct(ids) =>
        ids.bits == RegistryBits(registry) && ids.len == kind.Len() && ids.Holds(dense)
    }

    /** Palettes built here list each value once; only foreign ones may repeat. */
    predicate DistinctPalette() {
      storage.Indirect? ==> Distinct(storage.palette)
    }

    /** The bit header alone tells direct from indirect storage. */
    predicate HeaderTells() {
      storage.Direct? ==> storage.ids.bits > kind.MaxBits()
    }
  }

  ghost predicate IsKeyed(palette: seq<u32>, keys: Packed, k: seq<nat>, dense: seq<u32>) {
    keys.Holds(k) && |k| == |dense| && forall i :: 0 <= i < |k| ==> k[i] < |palette| && palette[k[i]] == dense[i]
  }

  // ----- widths -----

  lemma {:induction false} BitLengthIff(n: nat, k: nat)
    ensures BitLength(n) <= k <==> n < Pow(2, k)
    decreases k
  {
    PowPositive(2, k);
    if k > 0 && n > 0 {
      BitLengthIff(n / 2, k - 1);
    }
  }

  /** Registry IDs fit the registry's width, which fits packed storage. */
  lemma RegistryFits(registry: Registry, v: nat)
    requires v < registry
    ensures v < Pow(2, RegistryBits(registry)) && RegistryBits(registry) <= 31
    ensures registry >= 2 ==> RegistryBits(registry) >= 1
  {
    BitLengthIff(v, RegistryBits(registry));
    BitLengthIff(registry - 1, RegistryBits(registry));
    Pow31();
    BitLengthIff(registry - 1, 31);
  }

  lemma Pow31()
    ensures Pow(2, 31) == 0x8000_0000 && Pow(2, 8) == 256 && Pow(2, 3) == 8 && Pow(2, 1) == 2 && Pow(2, 4) == 16
  {
    assert Pow(2, 4) == 16;
    assert Pow(2, 3) == 8;
    PowAdd(2, 4, 4);
    PowAdd(2, 8, 8);
    PowAdd(2, 16, 8);
    PowAdd(2, 24, 4);
    PowAdd(2, 28, 3);
  }

  /** A direct header is recognisable exactly when the registry outgrows every palette. */
  lemma DirectHeaderIff(kind: Kind, registry: Registry)
    ensures RegistryBits(registry) > kind.MaxBits() <==> registry > Pow(2, kind.MaxBits())
  {
    BitLengthIff(registry - 1, kind.MaxBits());
  }

  /** A sequence without repeats that stays inside another is no longer than it. */
  lemma {:induction false} DistinctWithin(s: seq<u32>, t: seq<u32>)
    requires Distinct(s) && forall v :: v in s ==> v in t
    ensures |s| <= |t|
    decreases |s|
  {
    if s != [] {
      var n := |s| - 1;
      assert s[n] in s;
      var j :| 0 <= j < |t| && t[j] == s[n];
      var rest := t[..j] + t[j + 1..];
      forall v | v in s[..n] ensures v in rest {
        var k :| 0 <= k < n && s[k] == v;
        assert v in t && v != t[j];
        var m :| 0 <= m < |t| && t[m] == v;
        assert rest[if m < j then m else m - 1] == v;
      }
      DistinctWithin(s[..n], rest);
    }
  }

  lemma DistinctBelow(s: seq<u32>, n: nat)
    requires Distinct(s) && n <= TWO_32 && forall v :: v in s ==> v < n
    ensures |s| <= n
  {
    var t: seq<u32> := seq(n, i requires 0 <= i < n => i);
    forall v | v in s ensures v in t {
      assert t[v] == v;
    }
    DistinctWithin(s, t);
  }

  // ----- reading a cell -----

  method Get(c: PalettedContainer, index: nat, ghost dense: seq<u32>) returns (r: Result<u32, SectionError>)
    requires c.Shows(dense)
    ensures r == if index < c.kind.Len() then Ok(dense[index]) else Err(OutOfBounds)
  {
    if index >= c.kind.Len() {
      return Err(OutOfBounds);
    }
    match c.storage
    case Single(value) =>
      return Ok(value);
    case Indirect(palette, keys) =>
      ghost var k :| IsKeyed(palette, keys, k, dense);
      var key := GetCell(keys, index, k);
      if key == None || key.value >= |palette| {
        assert false;
      }
      return Ok(palette[key.value]);
    case Direct(ids) =>
      var id := GetCell(ids, index, dense);
      return Ok(id.value);
  }

  /** Every cell in linear order. */
  method Densify(c: PalettedContainer, ghost dense: seq<u32>) returns (cells: seq<u32>)
    requires c.Shows(dense)
    ensures cells == dense
  {
    cells := [];
    for i := 0 to c.kind.Len()
      invariant cells == dense[..i]
    {
      var cell := Get(c, i, dense);
      cells := cells + [cell.value];
    }
  }

  // ----- building -----

  /** Width of palette keys for the given cells; nine bits stand for "too many values". */
  function NeededBits(input: seq<u32>): nat {
    var d := |FirstUses(input)|;
    if d <= 1 then 0 else if d <= MAX_IDS then BitLength(d - 1) else 9
  }

  ghost function ValuesOf(input: seq<u32>): set<u32> {
    set v | v in input
  }

  /** A sequence without repeats has as many elements as values. */
  lemma {:induction false} DistinctCount(s: seq<u32>)
    requires Distinct(s)
    ensures |s| == |ValuesOf(s)|
  {
    if s != [] {
      var n := |s| - 1;
      DistinctCount(s[..n]);
      assert s == s[..n] + [s[n]];
      assert s[n] !in ValuesOf(s[..n]);
      assert ValuesOf(s) == ValuesOf(s[..n]) + {s[n]};
    }
  }

  /** Keys are as narrow as the number of different values allows; more than fit any palette need more than eight bits. */
  lemma NeededMeans(input: seq<u32>)
    ensures var values := |ValuesOf(input)|;
      && (values <= 1 ==> NeededBits(input) == 0)
      && (2 <= values <= 256 ==> forall k: nat :: NeededBits(input) <= k <==> values <= Pow(2, k))
      && (values > 256 ==> NeededBits(input) == 9)
  {
    CountIs(input);
    var d := |FirstUses(input)|;
    if 2 <= d <= 256 {
      forall k: nat ensures BitLength(d - 1) <= k <==> d <= Pow(2, k) {
        BitLengthIff(d - 1, k);
      }
    }
  }

  /** As many bits as the greatest registry ID takes. */
  lemma RegistryBitsMean(registry: Registry, k: nat)
    ensures RegistryBits(registry) <= k <==> registry <= Pow(2, k)
  {
    BitLengthIff(registry - 1, k);
  }

  /** Block palettes have four to eight bits, biome palettes one to three; beyond that cells are registry IDs. */
  lemma CompactMeans(c: PalettedContainer, input: seq<u32>)
    requires Compact(c, input, NeededBits(input))
    ensures var values := |ValuesOf(input)|;
      && |input| == (if c.kind.Blocks? then 4096 else 64)
      && (c.storage.Single? <==> values == 1)
      && (c.storage.Direct? <==> values > (if c.kind.Blocks? then 256 else 8))
      && (c.storage.Indirect? ==> |c.storage.palette| == values)
      && (c.storage.Indirect? && c.kind.Blocks? ==>
            c.storage.keys.bits == if values <= 16 then 4 else if values <= 32 then 5 else if values <= 64 then 6 else if values <= 128 then 7 else 8)
      && (c.storage.Indirect? && c.kind.Biomes? ==> c.storage.keys.bits == if values <= 2 then 1 else if values <= 4 then 2 else 3)
      && (c.storage.Direct? ==> c.storage.ids.bits == RegistryBits(c.registry))
  {
    hide PalettedContainer.Shows, NeededBits, RegistryBits, FirstUses;
    NeededMeans(input);
    var values := ValuesOf(input);
    ShownLength(c, input);
    assert input[0] in values;
    CountIs(input);
    Pow31();
    SmallPowers();
    var bits := NeededBits(input);
    if 2 <= |values| <= 256 {
      assert bits <= 8 && forall k: nat :: k <= 8 ==> (bits <= k <==> |values| <= Pow(2, k));
    }
  }

  lemma ShownLength(c: PalettedContainer, input: seq<u32>)
    requires c.Shows(input)
    ensures |input| == c.kind.Len() && (c.storage.Direct? ==> c.storage.ids.bits == RegistryBits(c.registry))
  {
  }

  lemma CountIs(input: seq<u32>)
    ensures |FirstUses(input)| == |ValuesOf(input)|
  {
    FirstUsesDistinct(input);
    DistinctCount(FirstUses(input));
    forall v ensures v in FirstUses(input) <==> v in input {
      FirstUsesMembers(input, v);
    }
    assert ValuesOf(input) == ValuesOf(FirstUses(input));
  }

  lemma SmallPowers()
    ensures Pow(2, 0) == 1 && Pow(2, 1) == 2 && Pow(2, 2) == 4 && Pow(2, 3) == 8 && Pow(2, 4) == 16
    ensures Pow(2, 5) == 32 && Pow(2, 6) == 64 && Pow(2, 7) == 128 && Pow(2, 8) == 256
  {
    assert Pow(2, 2) == 4 && Pow(2, 3) == 2 * Pow(2, 2) && Pow(2, 4) == 2 * Pow(2, 3) && Pow(2, 5) == 2 * Pow(2, 4);
    assert Pow(2, 6) == 2 * Pow(2, 5) && Pow(2, 7) == 2 * Pow(2, 6) && Pow(2, 8) == 2 * Pow(2, 7);
  }

  /** The storage that lists the cells compactly with keys of a given width. */
  ghost predicate Compact(c: PalettedContainer, input: seq<u32>, bits: nat) {
    c.Shows(input) &&
    if bits == 0 then c.storage == Single(input[0])
    else if bits > c.kind.MaxBits() then c.storage.Direct?
    else c.storage.Indirect? && c.storage.palette == FirstUses(input) && c.storage.keys.bits == c.kind.NormalizedBits(bits, c.registry)
  }

  /** The bytes that building at a given width allocates. */
  function BuildBytes(kind: Kind, registry: Registry, bits: nat): nat
    requires 1 <= kind.NormalizedBits(bits, registry) <= 31
  {
    var width := kind.NormalizedBits(bits, registry);
    PerWordFacts(width);
    (if bits > kind.MaxBits() then 0 else Pow(2, width) * 4) + WordCount(width, kind.Len()) * 8
  }

  ghost predicate AllIn(input: seq<u32>, registry: Registry) {
    forall v :: v in input ==> v < registry
  }

  /** First value a registry does not know. */
  function FirstUnknown(input: seq<u32>, registry: Registry): Option<u32> {
    if input == [] then None else if input[0] >= registry then Some(input[0]) else FirstUnknown(input[1..], registry)
  }

  lemma {:induction false} FirstUnknownAt(input: seq<u32>, registry: Registry, i: nat)
    requires i <= |input| && forall k :: 0 <= k < i ==> input[k] < registry
    ensures i < |input| && input[i] >= registry ==> FirstUnknown(input, registry) == Some(input[i])
    ensures i == |input| ==> FirstUnknown(input, registry) == None
  {
    if i > 0 {
      FirstUnknownAt(input[1..], registry, i - 1);
    }
  }

  /** Inserts every cell into a fresh scratch, refusing unknown IDs on the way. */
  method Scan(registry: Registry, input: seq<u32>) returns (r: Result<PaletteScratch, SectionError>)
    ensures r.Ok? ==> fresh(r.value) && fresh(r.value.ids) && fresh(r.value.slots) && r.value.Valid() && r.value.seen == input
    ensures r.Ok? <==> AllIn(input, registry)
    ensures r.Err? ==> FirstUnknown(input, registry).Some? && r == Err(OutOfRange(FirstUnknown(input, registry).value))
  {
    hide Indexes, FirstUses;
    var scratch := new PaletteScratch();
    for i := 0 to |input|
      invariant fresh(scratch) && fresh(scratch.ids) && fresh(scratch.slots)
      invariant scratch.Valid() && scratch.seen == input[..i]
      invariant forall k :: 0 <= k < i ==> input[k] < registry
    {
      if input[i] >= registry {
        FirstUnknownAt(input, registry, i);
        assert input[i] in input;
        return Err(OutOfRange(input[i]));
      }
      scratch.Insert(input[i]);
      assert input[..i + 1] == input[..i] + [input[i]];
    }
    assert input[..|input|] == input;
    r := Ok(scratch);
  }

  /** The key of a value is its place in first-use order. */
  function KeyOf(value: u32, uses: seq<u32>): nat
    requires value in uses
    ensures KeyOf(value, uses) < |uses| && uses[KeyOf(value, uses)] == value
  {
    if uses[0] == value then 0 else 1 + KeyOf(value, uses[1..])
  }

  lemma {:induction false} KeyIsUnique(value: u32, uses: seq<u32>, k: nat)
    requires Distinct(uses) && k < |uses| && uses[k] == value
    ensures value in uses && KeyOf(value, uses) == k
  {
    assert uses[k] in uses;
    var j := KeyOf(value, uses);
    assert !(j < k) && !(k < j);
  }

  ghost function KeysOf(input: seq<u32>): (r: seq<nat>)
    ensures |r| == |input|
  {
    seq(|input|, i requires 0 <= i < |input| => Key(input, i))
  }

  ghost function Key(input: seq<u32>, i: nat): nat
    requires i < |input|
  {
    FirstUsesMembers(input, input[i]);
    KeyOf(input[i], FirstUses(input))
  }

  method FillDirect(ids: Packed, input: seq<u32>) returns (r: Packed)
    requires ids.Holds(seq(|input|, _ => 0)) && ids.len == |input|
    requires forall i :: 0 <= i < |input| ==> input[i] < Pow(2, ids.bits)
    ensures r.Holds(input) && r.bits == ids.bits && |r.words| == |ids.words|
  {
    hide Pow, Packed.Holds;
    r := ids;
    ghost var cells: seq<nat> := seq(|input|, _ => 0);
    HoldsShape(r, cells);
    for i := 0 to |input|
      invariant r.Holds(cells) && r.len == |cells| == |input| && r.bits == ids.bits && |r.words| == |ids.words|
      invariant forall k :: 0 <= k < i ==> cells[k] == input[k]
    {
      var stored := SetCell(r, i, input[i], cells);
      r := stored.value.0;
      cells := cells[i := input[i]];
      HoldsShape(r, cells);
    }
    assert cells == input;
  }

  lemma HoldsShape(p: Packed, cells: seq<nat>)
    requires p.Holds(cells)
    ensures p.len == |cells| && 1 <= p.bits <= 31 && 1 <= p.len <= 4096
  {
  }

  method FillKeys(keys: Packed, scratch: PaletteScratch, input: seq<u32>) returns (r: Packed)
    requires keys.Holds(seq(|input|, _ => 0)) && keys.len == |input|
    requires scratch.Valid() && scratch.seen == input && |FirstUses(input)| <= MAX_IDS && |FirstUses(input)| <= Pow(2, keys.bits)
    ensures r.Holds(KeysOf(input)) && r.bits == keys.bits && |r.words| == |keys.words|
  {
    hide Pow, Packed.Holds, FirstUses, PaletteScratch.Valid;
    r := keys;
    ghost var cells: seq<nat> := seq(|input|, _ => 0);
    HoldsShape(r, cells);
    FirstUsesDistinct(input);
    for i := 0 to |input|
      invariant r.Holds(cells) && r.len == |cells| == |input| && r.bits == keys.bits && |r.words| == |keys.words|
      invariant forall k :: 0 <= k < i ==> cells[k] == KeysOf(input)[k]
    {
      FirstUsesMembers(input, input[i]);
      var key := scratch.Find(input[i]);
      KeyIsUnique(input[i], FirstUses(input), key.value);
      assert KeysOf(input)[i] == Key(input, i) == key.value;
      var stored := SetCell(r, i, key.value, cells);
      r := stored.value.0;
      cells := cells[i := key.value];
      HoldsShape(r, cells);
    }
    assert cells == KeysOf(input);
  }

  /** A width is usable when the cells' values fit it. */
  ghost predicate Usable(kind: Kind, registry: Registry, input: seq<u32>, bits: nat) {
    && (bits == 0 ==> forall i :: 0 <= i < |input| ==> input[i] == input[0])
    && (0 < bits <= kind.MaxBits() ==> |FirstUses(input)| <= Pow(2, bits))
    && (bits > kind.MaxBits() ==> registry >= 2)
  }

  lemma WidthInRange(kind: Kind, registry: Registry, bits: nat)
    requires bits > 0 && (bits > kind.MaxBits() ==> registry >= 2)
    ensures 1 <= kind.NormalizedBits(bits, registry) <= 31
    ensures bits <= kind.MaxBits() ==> kind.MinBits() <= kind.NormalizedBits(bits, registry) <= kind.MaxBits()
    ensures bits <= kind.MaxBits() ==> Pow(2, bits) <= Pow(2, kind.NormalizedBits(bits, registry)) <= 256
  {
    RegistryFits(registry, 0);
    Pow31();
    if bits <= kind.MaxBits() {
      PowGrows(bits, kind.NormalizedBits(bits, registry));
      PowGrows(kind.NormalizedBits(bits, registry), 8);
    }
  }

  /** Stores validated cells at a usable width, within the allowance. */
  method Store(kind: Kind, registry: Registry, input: seq<u32>, scratch: PaletteScratch, bits: nat, limit: nat)
      returns (r: Result<PalettedContainer, SectionError>)
    requires |input| == kind.Len() && AllIn(input, registry) && bits > 0 && Usable(kind, registry, input, bits)
    requires scratch.Valid() && scratch.seen == input
    ensures 1 <= kind.NormalizedBits(bits, registry) <= 31
    ensures r.Ok? <==> BuildBytes(kind, registry, bits) <= limit
    ensures r.Err? ==> r == Err(AllocationBudgetExceeded)
    ensures r.Ok? ==> var c := r.value;
      c.kind == kind && c.registry == registry && Compact(c, input, bits) && c.HeapBytes() == BuildBytes(kind, registry, bits)
    ensures r.Ok? && bits <= kind.MaxBits() ==> r.value.storage.keys.Holds(KeysOf(input))
  {
    hide Pow, Packed.Holds, FirstUses, PaletteScratch.Valid, PalettedContainer.Shows, RegistryBits;
    WidthInRange(kind, registry, bits);
    var direct := bits > kind.MaxBits();
    var width := kind.NormalizedBits(bits, registry);
    if BuildBytes(kind, registry, bits) > limit {
      return Err(AllocationBudgetExceeded);
    }
    var reserved := NewPacked(width, kind.Len(), 8 * WordCount(width, kind.Len()));
    var values := reserved.value;
    HoldsShape(values, seq(kind.Len(), _ => 0));
    if direct {
      forall i | 0 <= i < |input| ensures input[i] < Pow(2, width) {
        assert input[i] in input;
        RegistryFits(registry, input[i]);
      }
      var ids := FillDirect(values, input);
      DirectShows(kind, registry, ids, input);
      r := Ok(PalettedContainer(kind, registry, Direct(ids)));
    } else {
      var keys := FillKeys(values, scratch, input);
      PaletteOf(scratch);
      var palette := scratch.ids[..scratch.len];
      IndirectShows(kind, registry, palette, keys, input);
      r := Ok(PalettedContainer(kind, registry, Indirect(palette, keys)));
    }
  }

  lemma PaletteOf(scratch: PaletteScratch)
    requires scratch.Valid() && |FirstUses(scratch.seen)| <= MAX_IDS
    ensures scratch.len <= scratch.ids.Length && scratch.ids[..scratch.len] == FirstUses(scratch.seen)
  {
  }

  lemma DirectShows(kind: Kind, registry: Registry, ids: Packed, input: seq<u32>)
    requires |input| == kind.Len() && AllIn(input, registry) && ids.Holds(input) && ids.bits == RegistryBits(registry)
    ensures PalettedContainer(kind, registry, Direct(ids)).Shows(input)
  {
    assert forall i :: 0 <= i < |input| ==> input[i] in input;
  }

  lemma IndirectShows(kind: Kind, registry: Registry, palette: seq<u32>, keys: Packed, input: seq<u32>)
    requires |input| == kind.Len() && AllIn(input, registry) && keys.Holds(KeysOf(input))
    requires palette == FirstUses(input) && kind.MinBits() <= keys.bits <= kind.MaxBits() && |palette| <= Pow(2, keys.bits)
    ensures PalettedContainer(kind, registry, Indirect(palette, keys)).Shows(input)
  {
    hide Pow, Packed.Holds;
    HoldsShape(keys, KeysOf(input));
    forall v ensures v in palette <==> v in input {
      FirstUsesMembers(input, v);
    }
    assert input[0] in input;
    assert forall i :: 0 <= i < |input| ==> input[i] in input;
    assert forall i :: 0 <= i < |input| ==> KeysOf(input)[i] == Key(input, i);
    assert IsKeyed(palette, keys, KeysOf(input), input);
  }

  // ----- whole containers -----

  lemma SingleShows(kind: Kind, registry: Registry, input: seq<u32>)
    requires |input| == kind.Len() && AllIn(input, registry) && forall i :: 0 <= i < |input| ==> input[i] == input[0]
    ensures Compact(PalettedContainer(kind, registry, Single(input[0])), input, 0)
  {
    assert input[0] in input;
  }

  /** One distinct value: every cell holds it. */
  lemma OneValue(input: seq<u32>)
    requires |FirstUses(input)| <= 1
    ensures forall i :: 0 <= i < |input| ==> input[i] == input[0]
  {
    forall i | 0 <= i < |input| ensures input[i] == input[0] {
      FirstUsesMembers(input, input[i]);
      FirstUsesMembers(input, input[0]);
    }
  }

  /** The width chosen for the cells can hold them. */
  lemma NeededIsUsable(kind: Kind, registry: Registry, input: seq<u32>)
    requires |input| == kind.Len() && AllIn(input, registry)
    ensures Usable(kind, registry, input, NeededBits(input))
    ensures NeededBits(input) > kind.MaxBits() <==> |FirstUses(input)| > Pow(2, kind.MaxBits())
  {
    var d := |FirstUses(input)|;
    Pow31();
    FirstUsesDistinct(input);
    forall v | v in FirstUses(input) ensures v < registry {
      FirstUsesMembers(input, v);
    }
    DistinctBelow(FirstUses(input), registry);
    if d <= 1 {
      OneValue(input);
    } else {
      BitLengthIff(d - 1, NeededBits(input));
      BitLengthIff(d - 1, kind.MaxBits());
      BitLengthIff(d - 1, 0);
    }
  }

  /** Builds compact storage at the given width, or at the least width that holds the cells. */
  method Build(kind: Kind, registry: Registry, input: seq<u32>, forced: Option<nat>, limit: nat)
      returns (r: Result<PalettedContainer, SectionError>)
    requires forced.Some? ==> forced.value > 0 && Usable(kind, registry, input, forced.value)
    ensures |input| != kind.Len() ==> r == Err(InvalidLength(kind.Len(), |input|))
    ensures |input| == kind.Len() && !AllIn(input, registry) ==>
      FirstUnknown(input, registry).Some? && r == Err(OutOfRange(FirstUnknown(input, registry).value))
    ensures |input| == kind.Len() && AllIn(input, registry) ==>
      var bits := if forced.Some? then forced.value else NeededBits(input);
      && (bits > 0 ==> 1 <= kind.NormalizedBits(bits, registry) <= 31)
      && (r.Ok? <==> bits == 0 || BuildBytes(kind, registry, bits) <= limit)
      && (r.Err? ==> r == Err(AllocationBudgetExceeded))
      && (r.Ok? ==> r.value.kind == kind && r.value.registry == registry && Compact(r.value, input, bits)
                    && r.value.HeapBytes() == if bits == 0 then 0 else BuildBytes(kind, registry, bits))
      && (r.Ok? && 0 < bits <= kind.MaxBits() ==> r.value.storage.keys.Holds(KeysOf(input)))
  {
    hide Pow, Packed.Holds, FirstUses, PaletteScratch.Valid, PalettedContainer.Shows, RegistryBits, KeysOf, Usable, Kind.NormalizedBits;
    if |input| != kind.Len() {
      return Err(InvalidLength(kind.Len(), |input|));
    }
    var scanned := Scan(registry, input);
    if scanned.Err? {
      return Err(scanned.error);
    }
    var scratch := scanned.value;
    NeededIsUsable(kind, registry, input);
    ScratchCount(scratch);
    var bits := if forced.Some? then forced.value else if scratch.len <= 1 then 0 else BitLength(scratch.len - 1);
    if bits == 0 {
      OneValue(input);
      SingleShows(kind, registry, input);
      return Ok(PalettedContainer(kind, registry, Single(input[0])));
    }
    WidthInRangeOf(kind, registry, input, bits);
    r := Store(kind, registry, input, scratch, bits, limit);
  }

  lemma WidthInRangeOf(kind: Kind, registry: Registry, input: seq<u32>, bits: nat)
    requires bits > 0 && Usable(kind, registry, input, bits)
    ensures 1 <= kind.NormalizedBits(bits, registry) <= 31
  {
    WidthInRange(kind, registry, bits);
  }

  lemma ScratchCount(scratch: PaletteScratch)
    requires scratch.Valid()
    ensures scratch.len == if |FirstUses(scratch.seen)| <= MAX_IDS then |FirstUses(scratch.seen)| else MAX_IDS + 1
    ensures BitLength(MAX_IDS) == 9
  {
    BitLengthIff(MAX_IDS, 9);
    BitLengthIff(MAX_IDS, 8);
    Pow31();
    assert Pow(2, 9) == 2 * Pow(2, 8);
  }

  /** The cells of a full palette never outnumber it. */
  lemma UsesWithinPalette(palette: seq<u32>, keys: Packed, k: seq<nat>, dense: seq<u32>)
    requires IsKeyed(palette, keys, k, dense)
    ensures |FirstUses(dense)| <= |palette|
  {
    FirstUsesDistinct(dense);
    forall v | v in FirstUses(dense) ensures v in palette {
      FirstUsesMembers(dense, v);
      var i :| 0 <= i < |dense| && dense[i] == v;
      assert palette[k[i]] == v;
    }
    DistinctWithin(FirstUses(dense), palette);
  }

  /** Adding one key to an indirect container with room, or reusing one, changes one cell. */
  lemma KeyedUpdate(palette: seq<u32>, keys: Packed, k: seq<nat>, dense: seq<u32>, grown: seq<u32>, stored: Packed, index: nat, key: nat, value: u32)
    requires IsKeyed(palette, keys, k, dense) && index < |dense| && palette <= grown
    requires key < |grown| && grown[key] == value && stored.Holds(k[index := key])
    ensures IsKeyed(grown, stored, k[index := key], dense[index := value])
  {
  }

  /** The width at which a full container is rebuilt. */
  function NextBits(c: PalettedContainer): nat {
    if c.Bits() + 1 > c.kind.MinBits() then c.Bits() + 1 else c.kind.MinBits()
  }

  /** The replacement's bytes fit beside what is held. */
  predicate CanGrow(c: PalettedContainer, limit: int) {
    1 <= c.kind.NormalizedBits(NextBits(c), c.registry) <= 31 && c.HeapBytes() + BuildBytes(c.kind, c.registry, NextBits(c)) <= limit
  }

  /** A container that must grow to take a value: its one value or its palette is used up. */
  predicate MustGrow(c: PalettedContainer, value: u32) {
    match c.storage
    case Single(current) => current != value
    case Indirect(palette, keys) => value !in palette && |palette| >= Pow(2, keys.bits)
    case Direct(_) => false
  }

  /** Growing stays within palettes, or the registry outgrows every palette. */
  predicate GrowthTells(c: PalettedContainer) {
    NextBits(c) <= c.kind.MaxBits() || c.registry > Pow(2, c.kind.MaxBits())
  }

  /** A single value grows to the least palette; a palette by one bit, or past the widest one to registry IDs. */
  lemma GrownBits(c: PalettedContainer, built: PalettedContainer, dense: seq<u32>, value: u32)
    requires c.Shows(dense) && MustGrow(c, value) && Compact(built, dense, NextBits(c)) && built.kind == c.kind && built.registry == c.registry
    ensures c.storage.Indirect? ==> |c.storage.palette| == Pow(2, c.Bits())
    ensures built.Bits() ==
      if c.storage.Single? then (if c.kind.Blocks? then 4 else 1)
      else if c.Bits() == (if c.kind.Blocks? then 8 else 3) then RegistryBits(c.registry) else c.Bits() + 1
  {
    hide Pow, Packed.Holds, FirstUses, RegistryBits;
  }

  /** The next width is usable, and the rebuilt container has room for the value. */
  lemma GrowthFits(c: PalettedContainer, dense: seq<u32>, value: u32)
    requires c.Shows(dense) && MustGrow(c, value) && value < c.registry
    ensures NextBits(c) > 0 && Usable(c.kind, c.registry, dense, NextBits(c))
    ensures NextBits(c) <= c.kind.MaxBits() ==> |FirstUses(dense)| < Pow(2, NextBits(c))
    ensures c.storage.Indirect? ==> c.registry >= 2
    ensures c.storage.Indirect? && c.DistinctPalette() && NextBits(c) > c.kind.MaxBits() ==> RegistryBits(c.registry) > c.kind.MaxBits()
  {
    Pow31();
    match c.storage
    case Single(current) =>
      FirstUsesDistinct(dense);
      forall v | v in FirstUses(dense) ensures v in [current] {
        FirstUsesMembers(dense, v);
      }
      DistinctWithin(FirstUses(dense), [current]);
      PowGrows(1, c.kind.MinBits());
    case Indirect(palette, keys) =>
      var k :| IsKeyed(palette, keys, k, dense);
      UsesWithinPalette(palette, keys, k, dense);
      assert Pow(2, keys.bits + 1) == 2 * Pow(2, keys.bits);
      assert palette[0] in palette;
      if c.DistinctPalette() {
        DistinctBelow(palette + [value], c.registry);
        DirectHeaderIff(c.kind, c.registry);
      }
  }

  /** A rebuilt container takes the value in place: growing once is enough. */
  lemma GrowsOnce(c: PalettedContainer, dense: seq<u32>, bits: nat, value: u32)
    requires Compact(c, dense, bits) && bits > 0
    requires bits <= c.kind.MaxBits() ==> |FirstUses(dense)| < Pow(2, bits)
    ensures !MustGrow(c, value)
  {
    if bits <= c.kind.MaxBits() {
      PowGrows(bits, c.kind.NormalizedBits(bits, c.registry));
    }
  }

  lemma ShownInRegistry(c: PalettedContainer, dense: seq<u32>)
    requires c.Shows(dense)
    ensures |dense| == c.kind.Len() && AllIn(dense, c.registry)
  {
  }

  /** Rebuilding lists every value once, and leaves palettes only for a width its header tells. */
  lemma GrownHeader(c: PalettedContainer, built: PalettedContainer, dense: seq<u32>, value: u32)
    requires c.Shows(dense) && MustGrow(c, value) && value < c.registry
    requires built.kind == c.kind && built.registry == c.registry && Compact(built, dense, NextBits(c))
    ensures built.DistinctPalette() && (c.DistinctPalette() ==> built.HeaderTells())
    ensures built.HeaderTells() <==> GrowthTells(c)
  {
    hide Packed.Holds;
    GrowthFits(c, dense, value);
    FirstUsesDistinct(dense);
    DirectHeaderIff(c.kind, c.registry);
  }

  /** The index of the first palette entry holding a value. */
  method Position(palette: seq<u32>, value: u32) returns (r: Option<nat>)
    ensures r == None ==> value !in palette
    ensures r.Some? ==> r.value < |palette| && palette[r.value] == value
  {
    for i := 0 to |palette|
      invariant value !in palette[..i]
    {
      if palette[i] == value {
        return Some(i);
      }
      assert palette[..i + 1] == palette[..i] + [palette[i]];
    }
    assert palette[..|palette|] == palette;
    r := None;
  }

  /** A cell stored without new storage: through its key, a new palette entry, or directly. */
  method SetInPlace(c: PalettedContainer, index: nat, value: u32, ghost dense: seq<u32>) returns (after: PalettedContainer)
    requires c.Shows(dense) && !MustGrow(c, value) && value < c.registry && index < |dense|
    ensures after.Shows(dense[index := value]) && after.HeapBytes() == c.HeapBytes()
    ensures after.kind == c.kind && after.registry == c.registry
    ensures c.DistinctPalette() ==> after.DistinctPalette()
    ensures after.HeaderTells() == c.HeaderTells() && after.Bits() == c.Bits()
  {
    hide Pow, Packed.Holds, RegistryBits;
    after := c;
    match c.storage
    case Single(_) =>
    case Indirect(palette, keys) =>
      ghost var k :| IsKeyed(palette, keys, k, dense);
      HoldsShape(keys, k);
      var found := Position(palette, value);
      var key := if found.Some? then found.value else |palette|;
      var grown := if found.Some? then palette else palette + [value];
      PaletteKeyFits(c, key);
      var stored := SetCell(keys, index, key, k);
      HoldsShape(stored.value.0, k[index := key]);
      KeyedUpdate(palette, keys, k, dense, grown, stored.value.0, index, key, value);
      after := PalettedContainer(c.kind, c.registry, Indirect(grown, stored.value.0));
      assert after.Shows(dense[index := value]);
    case Direct(ids) =>
      HoldsShape(ids, dense);
      RegistryFits(c.registry, value);
      var stored := SetCell(ids, index, value, dense);
      HoldsShape(stored.value.0, dense[index := value]);
      after := PalettedContainer(c.kind, c.registry, Direct(stored.value.0));
  }

  lemma PaletteKeyFits(c: PalettedContainer, key: nat)
    requires c.storage.Indirect? && 1 <= c.storage.keys.bits <= 31
    ensures key < Pow(2, c.storage.keys.bits) ==> key < TWO_32
  {
    Pow64();
    PowGrows(c.storage.keys.bits, 31);
    Pow31();
  }

  /**
   Stores one cell. Every other cell keeps its value through every change of storage; a
   failure changes nothing; and old plus replacement storage stays inside the allowance.
   */
  method Set(c: PalettedContainer, index: nat, value: u32, limit: nat, ghost dense: seq<u32>)
      returns (r: Result<u32, SectionError>, after: PalettedContainer)
    requires c.Shows(dense)
    ensures r.Err? ==> after == c
    ensures r.Ok? ==> index < |dense| && r.value == dense[index] && after.Shows(dense[index := value])
    ensures after.kind == c.kind && after.registry == c.registry
    ensures value >= c.registry ==> r == Err(OutOfRange(value))
    ensures value < c.registry && index >= c.kind.Len() ==> r == Err(OutOfBounds)
    ensures value < c.registry && index < c.kind.Len() && !MustGrow(c, value) ==> r.Ok? && after.HeapBytes() == c.HeapBytes()
    ensures value < c.registry && index < c.kind.Len() && MustGrow(c, value) ==>
      && (r.Ok? <==> CanGrow(c, limit)) && (r.Err? ==> r == Err(AllocationBudgetExceeded))
      && (r.Ok? ==> c.HeapBytes() + after.HeapBytes() <= limit)
    ensures c.DistinctPalette() ==> after.DistinctPalette() && (c.HeaderTells() ==> after.HeaderTells())
    ensures r.Ok? ==> (after.HeaderTells() <==> if MustGrow(c, value) then GrowthTells(c) else c.HeaderTells())
    ensures r.Ok? ==> (after.Bits() ==
      if c.storage.Single? && value != c.storage.value then (if c.kind.Blocks? then 4 else 1)
      else if c.storage.Indirect? && value !in c.storage.palette && |c.storage.palette| == Pow(2, c.Bits()) then
        (if c.Bits() == (if c.kind.Blocks? then 8 else 3) then RegistryBits(c.registry) else c.Bits() + 1)
      else c.Bits())
    decreases if MustGrow(c, value) then 1 else 0
  {
    hide Pow, Packed.Holds, FirstUses, RegistryBits, KeysOf, BuildBytes;
    after := c;
    if value >= c.registry {
      return Err(OutOfRange(value)), after;
    }
    var old_ := Get(c, index, dense);
    if old_.Err? {
      return old_, after;
    }
    if !MustGrow(c, value) {
      after := SetInPlace(c, index, value, dense);
      return old_, after;
    }
    if limit < c.HeapBytes() {
      return Err(AllocationBudgetExceeded), after;
    }
    var budget := limit - c.HeapBytes();
    var cells := Densify(c, dense);
    GrowthFits(c, dense, value);
    var bits := NextBits(c);
    ShownInRegistry(c, dense);
    var built := Build(c.kind, c.registry, cells, Some(bits), budget);
    if built.Err? {
      return Err(built.error), after;
    }
    GrowsOnce(built.value, dense, bits, value);
    GrownHeader(c, built.value, dense, value);
    GrownBits(c, built.value, dense, value);
    var stored;
    stored, after := Set(built.value, index, value, budget, dense);
    r := old_;
  }
}
