/**
 The network form of a section: writing containers, an encoder that never builds one, and
 reading back.
 */
module SectionCodec {
  import opened World
  import opened Wire
  import opened PackedWords
  import opened Palette
  import opened Paletted
  import opened BigEndian

  /** 4 count bytes, a direct block container at 31 bits, a direct biome container at 31 bits. */
  const MAX_SECTION_NETWORK_BYTES: nat := 4 + 1 + 2048 * 8 + 1 + 32 * 8

  // ----- explicit compaction -----

  /** Rebuilds at the least width; the cells stay, and both storages fit the allowance together. */
  method Repack(c: PalettedContainer, limit: nat, ghost dense: seq<u32>) returns (r: Result<(), SectionError>, after: PalettedContainer)
    requires c.Shows(dense)
    ensures r.Err? ==> after == c && r == Err(AllocationBudgetExceeded)
    ensures r.Ok? ==> after.kind == c.kind && after.registry == c.registry && Compact(after, dense, NeededBits(dense))
    ensures |dense| == c.kind.Len() && AllIn(dense, c.registry)
    ensures r.Ok? <==> c.HeapBytes() + CompactHeap(c.kind, c.registry, dense) <= limit
    ensures r.Ok? ==> c.HeapBytes() + after.HeapBytes() <= limit
  {
    hide Pow, Packed.Holds, FirstUses, RegistryBits, Paletted.KeysOf, BuildBytes, NeededBits;
    after := c;
    ShownInRegistry(c, dense);
    if limit < c.HeapBytes() {
      return Err(AllocationBudgetExceeded), after;
    }
    var cells := Densify(c, dense);
    var built := Build(c.kind, c.registry, cells, None, limit - c.HeapBytes());
    if built.Err? {
      return Err(built.error), after;
    }
    return Ok(()), built.value;
  }

  // ----- bytes of a container -----

  function Varints(ids: seq<u32>): Bytes {
    if ids == [] then [] else Varint(ids[0]) + Varints(ids[1..])
  }

  function NetworkBytes(c: PalettedContainer): Bytes
    requires c.Bits() < 256
  {
    [c.Bits()] +
    match c.storage
    case Single(value) => Varint(value)
    case Indirect(palette, keys) => (if |palette| < TWO_32 then Varint(|palette|) else []) + Varints(palette) + PutAll(keys.words, 8)
    case Direct(ids) => PutAll(ids.words, 8)
  }

  function NetworkLen(c: PalettedContainer): nat {
    match c.storage
    case Single(value) => 1 + VarintLen(value)
    case Indirect(palette, keys) => 1 + (if |palette| < TWO_32 then VarintLen(|palette|) else 0) + VarintLens(palette) + |keys.words| * 8
    case Direct(ids) => 1 + |ids.words| * 8
  }

  function VarintLens(ids: seq<u32>): nat {
    if ids == [] then 0 else VarintLen(ids[0]) + VarintLens(ids[1..])
  }

  lemma {:induction false} VarintsLength(ids: seq<u32>)
    ensures |Varints(ids)| == VarintLens(ids)
  {
    if ids != [] {
      LengthAgrees(ids[0]);
      VarintsLength(ids[1..]);
    }
  }

  /** The length a writer reserves is the length it writes. */
  lemma NetworkLenAgrees(c: PalettedContainer)
    requires c.Bits() < 256
    ensures |NetworkBytes(c)| == NetworkLen(c)
  {
    match c.storage
    case Single(value) => LengthAgrees(value);
    case Indirect(palette, keys) =>
      if |palette| < TWO_32 {
        LengthAgrees(|palette|);
      }
      VarintsLength(palette);
      PutAllLength(keys.words, 8);
    case Direct(ids) => PutAllLength(ids.words, 8);
  }

  lemma {:induction false} VarintsAppend(ids: seq<u32>, id: u32)
    ensures Varints(ids + [id]) == Varints(ids) + Varint(id)
  {
    hide Varint;
    if ids == [] {
      assert [id][1..] == [] && ids + [id] == [id];
    } else {
      VarintsAppend(ids[1..], id);
      assert (ids + [id])[1..] == ids[1..] + [id];
    }
  }

  lemma BitsSmall(c: PalettedContainer, dense: seq<u32>)
    requires c.Shows(dense)
    ensures c.Bits() <= 31
    ensures c.storage.Indirect? ==> |c.storage.palette| <= 256
  {
    if c.storage.Direct? {
      HoldsShape(c.storage.ids, dense);
    } else if c.storage.Indirect? {
      Pow31();
      PowGrows(c.storage.keys.bits, 8);
    }
  }

  method AppendVarints(output: Bytes, ids: seq<u32>) returns (after: Bytes)
    ensures after == output + Varints(ids)
  {
    after := output;
    for i := 0 to |ids|
      invariant after == output + Varints(ids[..i])
    {
      var bytes := VarintBytes(ids[i]);
      VarintsAppend(ids[..i], ids[i]);
      assert ids[..i + 1] == ids[..i] + [ids[i]];
      after := after + bytes;
    }
    assert ids[..|ids|] == ids;
  }

  method AppendWords(output: Bytes, words: seq<u64>) returns (after: Bytes)
    ensures after == output + PutAll(words, 8)
  {
    after := output;
    for i := 0 to |words|
      invariant after == output + PutAll(words[..i], 8)
    {
      assert words[..i + 1][..i] == words[..i];
      after := after + Put(words[i], 8);
    }
    assert words[..|words|] == words;
  }

  /** Appends a container, or nothing when the spare capacity is short. */
  method WriteNetwork(c: PalettedContainer, output: Bytes, spare: nat, ghost dense: seq<u32>) returns (r: Result<(), SectionError>, after: Bytes)
    requires c.Shows(dense)
    ensures c.Bits() < 256
    ensures r == if |NetworkBytes(c)| <= spare then Ok(()) else Err(OutputCapacity)
    ensures after == if r.Ok? then output + NetworkBytes(c) else output
  {
    hide PalettedContainer.Shows, Put, PutAll, Varint;
    BitsSmall(c, dense);
    NetworkLenAgrees(c);
    after := output;
    if spare < NetworkLen(c) {
      return Err(OutputCapacity), after;
    }
    after := after + [c.Bits()];
    match c.storage {
      case Single(value) =>
        var bytes := VarintBytes(value);
        after := after + bytes;
      case Indirect(palette, keys) =>
        var bytes := VarintBytes(|palette|);
        after := AppendVarints(after + bytes, palette);
        after := AppendWords(after, keys.words);
      case Direct(ids) =>
        after := AppendWords(after, ids.words);
    }
    assert after == output + NetworkBytes(c);
    r := Ok(());
  }

  // ----- encoding dense cells without a container -----

  /** Packs the cells group by group; in each word the values fill disjoint bit ranges. */
  method EncodeWords(input: seq<u32>, direct: bool, scratch: PaletteScratch, bits: nat, output: Bytes, ghost cells: seq<nat>)
      returns (after: Bytes)
    requires 1 <= bits <= 31 && |input| > 0
    requires direct ==> cells == input
    requires !direct ==> cells == Paletted.KeysOf(input) && scratch.Valid() && scratch.seen == input && |FirstUses(input)| <= MAX_IDS
    ensures 64 / bits > 0 && after == output + PutAll(PackAll(cells, Pow(2, bits), 64 / bits), 8)
  {
    hide Pow, FirstUses, PaletteScratch.Valid, PutAll, PackAll, Word;
    PerWordFacts(bits);
    var per, base := 64 / bits, Pow(2, bits);
    var start: nat := 0;
    after := output;
    ghost var done: seq<nat> := [];
    PackStart(cells, base, per, output);
    while start < |input|
      invariant Packing(cells, base, per, start, done)
      invariant after == output + PutAll(done, 8)
    {
      var end := if start + per < |input| then start + per else |input|;
      var word := EncodeWord(input, direct, scratch, base, start, end, cells);
      PackNext(cells, base, per, start, done, word);
      after := after + Put(word, 8);
      done := done + [word];
      start := end;
    }
  }

  /** The words written so far are a prefix of the packed cells. */
  ghost predicate Packing(cells: seq<nat>, base: nat, per: nat, start: nat, done: seq<nat>) {
    per > 0 && start <= |cells| &&
    if start < |cells| then done + PackAll(cells[start..], base, per) == PackAll(cells, base, per) else done == PackAll(cells, base, per)
  }

  lemma PackStart(cells: seq<nat>, base: nat, per: nat, output: Bytes)
    requires per > 0 && cells != []
    ensures Packing(cells, base, per, 0, []) && output + PutAll([], 8) == output
  {
    assert cells[0..] == cells;
  }

  lemma PackNext(cells: seq<nat>, base: nat, per: nat, start: nat, done: seq<nat>, word: nat)
    requires Packing(cells, base, per, start, done) && start < |cells|
    requires word == Word(cells[start..if start + per < |cells| then start + per else |cells|], base)
    ensures Packing(cells, base, per, if start + per < |cells| then start + per else |cells|, done + [word])
    ensures PutAll(done + [word], 8) == PutAll(done, 8) + Put(word, 8)
  {
    hide Word, Put;
    var rest := cells[start..];
    assert (done + [word])[..|done|] == done;
    if |rest| <= per {
      assert rest == cells[start..|cells|];
    } else {
      assert rest[..per] == cells[start..start + per] && rest[per..] == cells[start + per..];
      assert done + PackAll(rest, base, per) == (done + [word]) + PackAll(rest[per..], base, per);
    }
  }

  /** What is packed for a cell: its ID, or its place in the palette. */
  method CellKey(input: seq<u32>, direct: bool, scratch: PaletteScratch, i: nat, ghost cells: seq<nat>) returns (value: nat)
    requires i < |input|
    requires direct ==> cells == input
    requires !direct ==> cells == Paletted.KeysOf(input) && scratch.Valid() && scratch.seen == input && |FirstUses(input)| <= MAX_IDS
    ensures value == cells[i]
  {
    hide FirstUses, PaletteScratch.Valid;
    if direct {
      return input[i];
    }
    FirstUsesDistinct(input);
    FirstUsesMembers(input, input[i]);
    var key := scratch.Find(input[i]);
    KeyIsUnique(input[i], FirstUses(input), key.value);
    assert Paletted.KeysOf(input)[i] == Key(input, i) == key.value;
    value := key.value;
  }

  method EncodeWord(input: seq<u32>, direct: bool, scratch: PaletteScratch, base: nat, start: nat, end: nat, ghost cells: seq<nat>)
      returns (word: nat)
    requires start <= end <= |input|
    requires direct ==> cells == input
    requires !direct ==> cells == Paletted.KeysOf(input) && scratch.Valid() && scratch.seen == input && |FirstUses(input)| <= MAX_IDS
    ensures word == Word(cells[start..end], base)
  {
    hide FirstUses, PaletteScratch.Valid, Word, Paletted.KeysOf;
    word := 0;
    var scale: nat := 1;
    EmptyWord(cells[start..start], base);
    for i := start to end
      invariant word == Word(cells[start..i], base) && scale == Pow(base, i - start)
    {
      var value := CellKey(input, direct, scratch, i, cells);
      WordAppend(cells[start..i], value, base);
      assert cells[start..i + 1] == cells[start..i] + [value];
      word := word + value * scale;
      scale := base * scale;
    }
  }

  lemma EmptyWord(digits: seq<nat>, base: nat)
    requires digits == []
    ensures Word(digits, base) == 0
  {
  }

  /** What the encoder writes for dense cells. */
  ghost function DenseBytes(kind: Kind, registry: Registry, input: seq<u32>): Bytes
    requires |input| == kind.Len() && AllIn(input, registry)
  {
    NeededIsUsable(kind, registry, input);
    var bits := NeededBits(input);
    if bits == 0 then [0] + Varint(input[0])
    else
      WidthInRange(kind, registry, bits);
      var width := kind.NormalizedBits(bits, registry);
      PerWordFacts(width);
      if bits > kind.MaxBits() then [width] + PutAll(PackAll(input, Pow(2, width), 64 / width), 8)
      else [width] + Varint(|FirstUses(input)|) + Varints(FirstUses(input)) + PutAll(PackAll(Paletted.KeysOf(input), Pow(2, width), 64 / width), 8)
  }

  method EncodeDense(kind: Kind, registry: Registry, input: seq<u32>, output: Bytes) returns (after: Bytes)
    requires |input| == kind.Len() && AllIn(input, registry)
    ensures after == output + DenseBytes(kind, registry, input)
  {
    hide Pow, FirstUses, PaletteScratch.Valid, PutAll, PackAll, Varint, Kind.NormalizedBits, Usable;
    var scanned := Scan(registry, input);
    var scratch := scanned.value;
    ScratchCount(scratch);
    NeededIsUsable(kind, registry, input);
    if scratch.len == 1 {
      after := output + [0];
      var bytes := VarintBytes(input[0]);
      after := after + bytes;
      assert after == output + DenseBytes(kind, registry, input);
      return;
    }
    SomeUse(input);
    var needed := BitLength(scratch.len - 1);
    BitLengthIff(scratch.len - 1, 0);
    var direct := needed > kind.MaxBits();
    WidthInRangeOf(kind, registry, input, needed);
    var bits := kind.NormalizedBits(needed, registry);
    after := output + [bits];
    if !direct {
      var count := VarintBytes(scratch.len);
      PaletteOf(scratch);
      after := AppendVarints(after + count, scratch.ids[..scratch.len]);
    }
    ghost var cells: seq<nat> := if direct then input else Paletted.KeysOf(input);
    after := EncodeWords(input, direct, scratch, bits, after, cells);
    assert after == output + DenseBytes(kind, registry, input);
  }

  lemma SomeUse(input: seq<u32>)
    requires input != []
    ensures |FirstUses(input)| >= 1
  {
    FirstUsesMembers(input, input[0]);
  }

  /** The encoder writes exactly what building a container and writing it would. */
  lemma EncoderAgrees(c: PalettedContainer, input: seq<u32>)
    requires Compact(c, input, NeededBits(input))
    ensures AllIn(input, c.registry) && c.Bits() < 256
    ensures NetworkBytes(c) == DenseBytes(c.kind, c.registry, input)
  {
    hide Pow, FirstUses, PutAll, PackAll, Varint;
    BitsSmall(c, input);
    if c.storage.Indirect? {
      var k :| IsKeyed(c.storage.palette, c.storage.keys, k, input);
      FirstUsesDistinct(input);
      forall i | 0 <= i < |input| ensures k[i] == Paletted.KeysOf(input)[i] {
        KeyIsUnique(input[i], FirstUses(input), k[i]);
        assert Paletted.KeysOf(input)[i] == Key(input, i);
      }
      assert k == Paletted.KeysOf(input);
    }
  }

  // ----- the output bound -----

  lemma FewWords(len: nat, per: nat, least: nat)
    requires 0 < least <= per && len > 0
    ensures least * ((len + per - 1) / per - 1) <= len - 1
  {
    var q := (len + per - 1) / per;
    var r := (len + per - 1) % per;
    assert len + per - 1 == per * q + r;
    assert q >= 1;
    assert per * q == per * (q - 1) + per;
    MulMonotone(q - 1, least, per);
    assert (q - 1) * per == per * (q - 1) && (q - 1) * least == least * (q - 1);
  }

  lemma {:induction false} VarintsBound(ids: seq<u32>)
    ensures |Varints(ids)| <= 5 * |ids|
  {
    if ids != [] {
      VarintShort(ids[0]);
      VarintsBound(ids[1..]);
    }
  }

  /** Packed words of a container, in bytes. */
  lemma PackedBytes(cells: seq<nat>, bits: nat, least: nat)
    requires 1 <= bits <= 31 && cells != [] && 0 < least <= 64 / bits
    ensures least * (|PutAll(PackAll(cells, Pow(2, bits), 64 / bits), 8)| / 8 - 1) <= |cells| - 1
    ensures |PutAll(PackAll(cells, Pow(2, bits), 64 / bits), 8)| % 8 == 0
  {
    hide Pow, PackAll, PutAll;
    PackAllLength(cells, Pow(2, bits), 64 / bits);
    PutAllLength(PackAll(cells, Pow(2, bits), 64 / bits), 8);
    FewWords(|cells|, 64 / bits, least);
  }

  /** No registry and no cells make a container longer than its direct form at 31 bits. */
  lemma DenseBytesBound(kind: Kind, registry: Registry, input: seq<u32>)
    requires |input| == kind.Len() && AllIn(input, registry)
    ensures |DenseBytes(kind, registry, input)| <= 1 + (if kind.Blocks? then 2048 * 8 else 32 * 8)
  {
    hide Pow, PackAll, PutAll, FirstUses, Varint, Varints, Usable;
    NeededIsUsable(kind, registry, input);
    var bits := NeededBits(input);
    if bits == 0 {
      VarintShort(input[0]);
    } else {
      WidthInRange(kind, registry, bits);
      var width := kind.NormalizedBits(bits, registry);
      PerWordFacts(width);
      if bits > kind.MaxBits() {
        PackedBytes(input, width, 2);
      } else {
        PaletteSize(kind);
        VarintShort(|FirstUses(input)|);
        VarintsBound(FirstUses(input));
        WidePerWord(kind, width);
        PackedBytes(Paletted.KeysOf(input), width, if kind.Blocks? then 8 else 21);
      }
    }
  }

  lemma PaletteSize(kind: Kind)
    ensures Pow(2, kind.MaxBits()) == if kind.Blocks? then 256 else 8
  {
    Pow31();
  }

  lemma WidePerWord(kind: Kind, width: nat)
    requires 1 <= width <= kind.MaxBits()
    ensures 64 / width >= if kind.Blocks? then 8 else 21
  {
  }

  // ----- sections -----

  datatype SectionCounts = SectionCounts(nonEmptyBlocks: u16, fluidBlocks: u16) {
    predicate Valid() {
      nonEmptyBlocks <= 4096 && fluidBlocks <= nonEmptyBlocks
    }
  }

  function CountBytes(counts: SectionCounts): Bytes {
    Put(counts.nonEmptyBlocks, 2) + Put(counts.fluidBlocks, 2)
  }

  /** The whole payload of a section. */
  ghost function SectionBytes(counts: SectionCounts, blocks: seq<u32>, biomes: seq<u32>, blockRegistry: Registry, biomeRegistry: Registry): Bytes
    requires |blocks| == 4096 && AllIn(blocks, blockRegistry) && |biomes| == 64 && AllIn(biomes, biomeRegistry)
  {
    CountBytes(counts) + DenseBytes(Blocks, blockRegistry, blocks) + DenseBytes(Biomes, biomeRegistry, biomes)
  }

  /** The first byte of a container is its width, which its number of different values decides. */
  lemma HeaderMeans(kind: Kind, registry: Registry, input: seq<u32>)
    requires |input| == kind.Len() && AllIn(input, registry)
    ensures var values := |ValuesOf(input)|;
      var bytes := DenseBytes(kind, registry, input);
      && values >= 1 && |bytes| > 0
      && (kind.Blocks? ==> (bytes[0] ==
           if values == 1 then 0 else if values <= 16 then 4 else if values <= 32 then 5 else if values <= 64 then 6
           else if values <= 128 then 7 else if values <= 256 then 8 else RegistryBits(registry)))
      && (kind.Biomes? ==> (bytes[0] ==
           if values == 1 then 0 else if values <= 2 then 1 else if values <= 4 then 2 else if values <= 8 then 3 else RegistryBits(registry)))
  {
    hide DenseBytes, NeededBits, Compact, PalettedContainer.Shows, RegistryBits, PutAll, Varint;
    assert input[0] in ValuesOf(input);
    var c := CompactExists(kind, registry, input);
    CompactMeans(c, input);
    assert NetworkBytes(c)[0] == c.Bits();
  }

  /** A section of one block and one biome: two counts, high byte first, and two containers of width zero. */
  lemma UniformSection(counts: SectionCounts, block: u32, biome: u32, blockRegistry: Registry, biomeRegistry: Registry)
    requires block < blockRegistry && biome < biomeRegistry
    ensures var blocks, biomes := seq(4096, _ => block), seq(64, _ => biome);
      && AllIn(blocks, blockRegistry) && AllIn(biomes, biomeRegistry)
      && SectionBytes(counts, blocks, biomes, blockRegistry, biomeRegistry) ==
         [counts.nonEmptyBlocks / 0x100, counts.nonEmptyBlocks % 0x100, counts.fluidBlocks / 0x100, counts.fluidBlocks % 0x100]
         + ([0] + Varint(block)) + ([0] + Varint(biome))
  {
    hide DenseBytes, Put, Varint;
    PutMeans(0, 0, counts.nonEmptyBlocks / 0x100, counts.nonEmptyBlocks % 0x100, 0);
    PutMeans(0, 0, counts.fluidBlocks / 0x100, counts.fluidBlocks % 0x100, 0);
    UniformCells(Blocks, blockRegistry, block);
    UniformCells(Biomes, biomeRegistry, biome);
  }

  lemma UniformCells(kind: Kind, registry: Registry, value: u32)
    requires value < registry
    ensures var input := seq(kind.Len(), _ => value);
      AllIn(input, registry) && DenseBytes(kind, registry, input) == [0] + Varint(value)
  {
    hide NeededBits, Varint;
    var input := seq(kind.Len(), _ => value);
    assert forall v :: v in ValuesOf(input) <==> v == value by {
      assert input[0] == value;
    }
    assert ValuesOf(input) == {value};
    NeededMeans(input);
  }

  /** The worker kernel: no containers, bounded output, nothing written on failure. */
  method PrepareSection(blocks: seq<u32>, biomes: seq<u32>, blockRegistry: Registry, biomeRegistry: Registry,
                        counts: SectionCounts, output: Bytes, spare: nat)
      returns (r: Result<(), SectionError>, after: Bytes)
    requires |blocks| == 4096 && |biomes| == 64
    ensures r == if !counts.Valid() then Err(InvalidCounts)
                 else if spare < MAX_SECTION_NETWORK_BYTES then Err(OutputCapacity)
                 else if FirstUnknown(blocks, blockRegistry).Some? then Err(OutOfRange(FirstUnknown(blocks, blockRegistry).value))
                 else if FirstUnknown(biomes, biomeRegistry).Some? then Err(OutOfRange(FirstUnknown(biomes, biomeRegistry).value))
                 else Ok(())
    ensures r.Err? ==> after == output
    ensures r.Ok? ==> AllIn(blocks, blockRegistry) && AllIn(biomes, biomeRegistry)
                      && after == output + SectionBytes(counts, blocks, biomes, blockRegistry, biomeRegistry)
                      && |after| <= |output| + MAX_SECTION_NETWORK_BYTES
  {
    hide DenseBytes;
    after := output;
    if !counts.Valid() {
      return Err(InvalidCounts), after;
    }
    if spare < MAX_SECTION_NETWORK_BYTES {
      return Err(OutputCapacity), after;
    }
    var unknown := Validate(blocks, blockRegistry);
    if unknown.Some? {
      return Err(OutOfRange(unknown.value)), after;
    }
    unknown := Validate(biomes, biomeRegistry);
    if unknown.Some? {
      return Err(OutOfRange(unknown.value)), after;
    }
    DenseBytesBound(Blocks, blockRegistry, blocks);
    DenseBytesBound(Biomes, biomeRegistry, biomes);
    after := after + CountBytes(counts);
    after := EncodeDense(Blocks, blockRegistry, blocks, after);
    after := EncodeDense(Biomes, biomeRegistry, biomes, after);
    assert after == output + SectionBytes(counts, blocks, biomes, blockRegistry, biomeRegistry);
    r := Ok(());
  }

  method Validate(input: seq<u32>, registry: Registry) returns (unknown: Option<u32>)
    ensures unknown == FirstUnknown(input, registry)
    ensures unknown == None <==> AllIn(input, registry)
  {
    for i := 0 to |input|
      invariant forall k :: 0 <= k < i ==> input[k] < registry
    {
      FirstUnknownAt(input, registry, i);
      if input[i] >= registry {
        assert input[i] in input;
        return Some(input[i]);
      }
    }
    FirstUnknownAt(input, registry, |input|);
    unknown := None;
  }

  // ----- reading -----

  method ReadInt(input: Bytes) returns (r: Result<(u32, Bytes), SectionError>)
    ensures forall value: u32, rest :: input == Varint(value) + rest ==> r == Ok((value, rest))
    ensures r.Ok? ==> exists n :: 0 <= n <= |input| && r.value.1 == input[n..]
  {
    var read := ReadVarint(input);
    forall value: u32, rest | input == Varint(value) + rest
      ensures read == Ok((value, |Varint(value)|)) && rest == input[|Varint(value)|..]
    {
      ReadAfterWrite(value, rest, read);
    }
    match read
    case Ok(pair) => r := Ok((pair.0, input[pair.1..]));
    case Err(Incomplete) => r := Err(Truncated);
    case Err(TooLong) => r := Err(InvalidVarInt);
  }

  /** Some bytes from the end of the input remain. */
  ghost predicate IsTail(rest: Bytes, input: Bytes) {
    |rest| <= |input| && rest == input[|input| - |rest|..]
  }

  lemma TailOfTail(a: Bytes, b: Bytes, c: Bytes)
    requires IsTail(b, a) && IsTail(c, b)
    ensures IsTail(c, a)
  {
  }

  lemma SliceIsTail(a: Bytes, n: nat)
    requires n <= |a|
    ensures IsTail(a[n..], a)
  {
  }

  lemma ReadIntTail(input: Bytes, r: Result<(u32, Bytes), SectionError>)
    requires r.Ok? ==> exists n :: 0 <= n <= |input| && r.value.1 == input[n..]
    ensures r.Ok? ==> IsTail(r.value.1, input)
  {
  }

  /** Reads palette IDs, refusing any the registry does not know. */
  method ReadIds(input: Bytes, count: nat, registry: Registry, ghost ids: seq<u32>, ghost rest: Bytes)
      returns (r: Result<(seq<u32>, Bytes), SectionError>)
    ensures r.Ok? ==> |r.value.0| == count && AllIn(r.value.0, registry) && IsTail(r.value.1, input)
    ensures input == Varints(ids) + rest && |ids| == count && AllIn(ids, registry) ==> r == Ok((ids, rest))
  {
    var found: seq<u32>, cursor := [], input;
    ghost var expected := input == Varints(ids) + rest && |ids| == count && AllIn(ids, registry);
    for i := 0 to count
      invariant |found| == i && AllIn(found, registry) && IsTail(cursor, input)
      invariant expected ==> found == ids[..i] && cursor == Varints(ids[i..]) + rest
    {
      if expected {
        assert ids[i] in ids && ids[i..][1..] == ids[i + 1..];
        assert cursor == Varint(ids[i]) + (Varints(ids[i + 1..]) + rest);
      }
      var read := ReadInt(cursor);
      if read.Err? {
        return Err(read.error);
      }
      var id := read.value.0;
      if id >= registry {
        return Err(OutOfRange(id));
      }
      TailOfTail(input, cursor, read.value.1);
      found, cursor := found + [id], read.value.1;
    }
    if expected {
      assert ids[..count] == ids && ids[count..] == [];
    }
    r := Ok((found, cursor));
  }

  // ----- words from the wire -----

  /** The lowest `n` digits of a word. */
  ghost function Digits(word: nat, base: nat, n: nat): seq<nat>
    requires base > 0
  {
    seq(n, k requires 0 <= k < n => Digit(word, base, k))
  }

  ghost function Digit(word: nat, base: nat, k: nat): nat
    requires base > 0
  {
    PowPositive(base, k);
    word / Pow(base, k) % base
  }

  /** Masking a word to `n` digits leaves the word of those digits. */
  lemma {:induction false} DigitsWord(word: nat, base: nat, n: nat)
    requires base > 0
    ensures Pow(base, n) > 0 && Word(Digits(word, base, n), base) == word % Pow(base, n)
  {
    PowPositive(base, n);
    if n > 0 {
      DigitsWord(word, base, n - 1);
      var d := Digits(word, base, n);
      assert d == Digits(word, base, n - 1) + [Digit(word, base, n - 1)];
      WordAppend(Digits(word, base, n - 1), Digit(word, base, n - 1), base);
      PowPositive(base, n - 1);
      ModSplit(word, Pow(base, n - 1), base);
    }
  }

  lemma ModSplit(word: nat, m: nat, b: nat)
    requires m > 0 && b > 0
    ensures b * m > 0 && word % (b * m) == word % m + word / m % b * m
  {
    var q, r := word / m, word % m;
    var s, t := q / b, q % b;
    Nested(word, m, b, q, r, s, t);
    assert m * b == b * m && m * b * s == b * m * s;
    QuotientIs(word, b * m, s, m * t + r);
    assert m * t == t * m;
  }

  /** The cells that a sequence of words holds, low digits first. */
  ghost function Unpack(words: seq<nat>, len: nat, base: nat, per: nat): seq<nat>
    requires base > 0 && per > 0
    decreases |words|
  {
    if words == [] then []
    else if len <= per then Digits(words[0], base, len)
    else Digits(words[0], base, per) + Unpack(words[1..], len - per, base, per)
  }

  /** Words masked to the digits their cells use. */
  function Masked(words: seq<nat>, len: nat, base: nat, per: nat): seq<nat>
    requires base > 0 && per > 0
    decreases |words|
  {
    if words == [] then []
    else
      var n := if len <= per then len else per;
      PowPositive(base, n);
      [words[0] % Pow(base, n)] + Masked(words[1..], len - n, base, per)
  }

  lemma DigitsBelow(word: nat, base: nat, n: nat)
    requires base > 0
    ensures AllBelow(Digits(word, base, n), base) && |Digits(word, base, n)| == n
  {
  }

  /** Masked words are the packed form of the cells they hold. */
  lemma {:induction false} MaskedPacks(words: seq<nat>, len: nat, base: nat, per: nat)
    requires base > 0 && per > 0 && len > 0 && |words| == (len + per - 1) / per
    ensures |Unpack(words, len, base, per)| == len && AllBelow(Unpack(words, len, base, per), base)
    ensures Masked(words, len, base, per) == PackAll(Unpack(words, len, base, per), base, per)
    decreases |words|
  {
    hide Word, Pow, Digit;
    CountWords(len, per);
    var n := if len <= per then len else per;
    DigitsWord(words[0], base, n);
    DigitsBelow(words[0], base, n);
    if len <= per {
      assert words[1..] == [];
    } else {
      MaskedPacks(words[1..], len - per, base, per);
      var cells := Unpack(words, len, base, per);
      assert cells[..per] == Digits(words[0], base, per) && cells[per..] == Unpack(words[1..], len - per, base, per);
    }
  }

  lemma CountWords(len: nat, per: nat)
    requires per > 0 && len > 0
    ensures len <= per ==> (len + per - 1) / per == 1
    ensures len > per ==> (len + per - 1) / per == (len - per + per - 1) / per + 1
  {
    if len <= per {
      QuotientIs(len + per - 1, per, 1, len - 1);
    } else {
      var n := len - per + per - 1;
      QuotientIs(len + per - 1, per, n / per + 1, n % per);
    }
  }

  /** Cell `k` of word `w` is that word's k-th digit. */
  lemma {:induction false} UnpackAt(words: seq<nat>, len: nat, base: nat, per: nat, w: nat, k: nat)
    requires base > 0 && per > 0 && len > 0 && |words| == (len + per - 1) / per
    requires k < per && Offset(w, per) + k < len
    ensures w < |words| && Offset(w, per) + k < |Unpack(words, len, base, per)|
    ensures Unpack(words, len, base, per)[Offset(w, per) + k] == Digit(words[w], base, k)
    decreases w
  {
    hide Digit;
    CountWords(len, per);
    DigitsBelow(words[0], base, if len <= per then len else per);
    if w > 0 {
      UnpackAt(words[1..], len - per, base, per, w - 1, k);
    }
  }

  /** Reading back the words of packed storage gives its cells. */
  lemma UnpackHeld(p: Packed, cells: seq<nat>)
    requires p.Holds(cells)
    ensures 64 / p.bits > 0 && p.Base() > 0 && |p.words| == (p.len + 64 / p.bits - 1) / (64 / p.bits)
    ensures Unpack(p.words, p.len, p.Base(), 64 / p.bits) == cells
  {
    hide Pow, PackAll, Digit, Unpack, WordIndex, DigitIndex, Scale, Offset;
    PerWordFacts(p.bits);
    BasePositive(p);
    var per, base := 64 / p.bits, p.Base();
    PackAllLength(cells, base, per);
    MaskedPacks(p.words, p.len, base, per);
    forall i | 0 <= i < p.len ensures Unpack(p.words, p.len, base, per)[i] == cells[i] {
      PositionFacts(i, p.bits);
      var w, k := WordIndex(i, p.bits), DigitIndex(i, p.bits);
      UnpackAt(p.words, p.len, base, per, w, k);
      LookupIsCell(p, cells, i);
      DigitAtScale(p.words[w], i, p.bits);
    }
  }

  lemma DigitAtScale(word: nat, i: nat, bits: nat)
    requires 1 <= bits <= 31
    ensures Scale(i, bits) > 0 && Pow(2, bits) > 0
    ensures Digit(word, Pow(2, bits), DigitIndex(i, bits)) == word / Scale(i, bits) % Pow(2, bits)
  {
    PositionFacts(i, bits);
    PowPositive(2, bits);
  }

  /** Eight big-endian bytes a word. */
  method ParseWords(bytes: Bytes, count: nat, ghost want: seq<u64>) returns (words: seq<u64>)
    requires |bytes| == 8 * count
    ensures |words| == count
    ensures |want| == count && bytes == PutAll(want, 8) ==> words == want
  {
    words := [];
    Widths();
    for i := 0 to count
      invariant |words| == i
      invariant |want| == count && bytes == PutAll(want, 8) ==> words == want[..i]
    {
      var eight := bytes[8 * i..8 * i + 8];
      TakeBound(eight);
      if |want| == count && bytes == PutAll(want, 8) {
        PutAllAt(want, 8, i);
        TakePut(want[i], 8);
        assert want[..i + 1] == want[..i] + [want[i]];
      }
      words := words + [Take(eight)];
    }
  }

  /** One past the largest value that `entries` cells of a word can take. */
  function UsedScale(bits: nat, entries: nat): nat {
    Pow(2, entries * bits)
  }

  lemma UsedScaleIs(bits: nat, entries: nat)
    ensures UsedScale(bits, entries) == Pow(Pow(2, bits), entries) > 0
  {
    PowMul(bits, entries);
    PowPositive(2, entries * bits);
  }

  /** The bits below a power of two. */
  function LowPart(word: u64, scale: nat): (r: u64)
    requires scale > 0
    ensures r == word % scale
  {
    DivisionParts(word, scale);
    assert scale * (word / scale) >= 0;
    word % scale
  }

  /** Clears every bit that no cell uses. */
  method MaskWords(words: seq<u64>, bits: nat, len: nat) returns (masked: seq<u64>)
    requires 1 <= bits <= 31 && len > 0 && 64 / bits > 0 && |words| == (len + 64 / bits - 1) / (64 / bits)
    ensures Pow(2, bits) > 0 && masked == Masked(words, len, Pow(2, bits), 64 / bits)
  {
    hide Pow, Masked, UsedScale, LowPart;
    var per := 64 / bits;
    ghost var base := Pow(2, bits);
    PowPositive(2, bits);
    masked := [];
    var left: nat := len;
    MaskStart(words, len, base, per);
    for i := 0 to |words|
      invariant masked + Masked(words[i..], left, base, per) == Masked(words, len, base, per)
    {
      var entries := if per < left then per else left;
      MaskStep(words, i, left, base, per);
      UsedScaleIs(bits, entries);
      var word := LowPart(words[i], UsedScale(bits, entries));
      assert masked + ([word] + Masked(words[i + 1..], left - entries, base, per))
          == masked + [word] + Masked(words[i + 1..], left - entries, base, per);
      masked, left := masked + [word], left - entries;
    }
    MaskEnd(words, left, base, per);
  }

  lemma MaskStart(words: seq<nat>, len: nat, base: nat, per: nat)
    requires base > 0 && per > 0
    ensures [] + Masked(words[0..], len, base, per) == Masked(words, len, base, per)
  {
    assert words[0..] == words;
  }

  lemma MaskStep(words: seq<nat>, i: nat, left: nat, base: nat, per: nat)
    requires base > 0 && per > 0 && i < |words|
    ensures var n := if per < left then per else left;
      Pow(base, n) > 0 && Masked(words[i..], left, base, per) == [words[i] % Pow(base, n)] + Masked(words[i + 1..], left - n, base, per)
  {
    assert words[i..][1..] == words[i + 1..];
    PowPositive(base, if per < left then per else left);
  }

  lemma MaskEnd(words: seq<nat>, left: nat, base: nat, per: nat)
    requires base > 0 && per > 0
    ensures Masked(words[|words|..], left, base, per) == []
  {
  }

  /** Validates every cell against a bound before any storage is kept. */
  method ReadWords(bytes: Bytes, bits: nat, len: nat, bound: nat, direct: bool, ghost want: Packed, ghost cells: seq<nat>)
      returns (r: Result<Packed, SectionError>, ghost keys: seq<nat>)
    requires 1 <= bits <= 31 && 1 <= len <= 4096 && |bytes| == 8 * WordCount(bits, len) && bound <= TWO_32
    ensures r.Ok? ==> r.value.bits == bits && r.value.len == len && r.value.Holds(keys) && AllBelow(keys, bound)
    ensures want.Holds(cells) && want.bits == bits && want.len == len && bytes == PutAll(want.words, 8) && AllBelow(cells, bound)
            ==> r == Ok(want)
  {
    hide Pow, PackAll, Digit, Unpack, WordIndex, DigitIndex, Scale, Masked, Packed.Holds, PutAll;
    PerWordFacts(bits);
    PowPositive(2, bits);
    ghost var base := Pow(2, bits);
    ghost var expected := want.Holds(cells) && want.bits == bits && want.len == len && bytes == PutAll(want.words, 8) && AllBelow(cells, bound);
    if expected {
      HoldsShape(want, cells);
      UnpackHeld(want, cells);
    }
    var words := ParseWords(bytes, WordCount(bits, len), want.words);
    keys := Unpack(words, len, base, 64 / bits);
    MaskedPacks(words, len, base, 64 / bits);
    for i := 0 to len
      invariant forall j :: 0 <= j < i ==> keys[j] < bound
    {
      PositionFacts(i, bits);
      UnpackAt(words, len, base, 64 / bits, WordIndex(i, bits), DigitIndex(i, bits));
      DigitAtScale(words[WordIndex(i, bits)], i, bits);
      var key := words[WordIndex(i, bits)] / Scale(i, bits) % Pow(2, bits);
      assert key == keys[i];
      if key >= bound {
        KeyIsSmall(bits, key);
        return Err(if direct then OutOfRange(key) else InvalidPaletteIndex(key)), keys;
      }
    }
    var masked := MaskWords(words, bits, len);
    var p := Packed(bits, len, masked);
    MaskedHolds(p, keys, words);
    if expected {
      assert keys == cells;
      HeldWords(want, cells, p);
    }
    return Ok(p), keys;
  }

  lemma KeyIsSmall(bits: nat, key: nat)
    requires bits <= 31 && key < Pow(2, bits)
    ensures key < TWO_32
  {
    Pow31();
    PowGrows(bits, 31);
  }

  lemma MaskedHolds(p: Packed, keys: seq<nat>, words: seq<nat>)
    requires p.Shaped() && p.Base() > 0 && |keys| == p.len && AllBelow(keys, p.Base())
    requires p.words == Masked(words, p.len, p.Base(), 64 / p.bits) == PackAll(keys, p.Base(), 64 / p.bits)
    ensures p.Holds(keys)
  {
  }

  lemma HeldWords(p: Packed, cells: seq<nat>, q: Packed)
    requires p.Holds(cells) && q.Holds(cells) && p.bits == q.bits
    ensures p == q
  {
  }

  /** A container that a reader with these parameters may hold. */
  ghost predicate Held(c: PalettedContainer, dense: seq<u32>, kind: Kind, registry: Registry, limit: nat) {
    c.Shows(dense) && c.kind == kind && c.registry == registry && c.HeapBytes() <= limit
  }

  /** One that it can recover from the bytes it writes. */
  ghost predicate Recoverable(c: PalettedContainer, dense: seq<u32>, kind: Kind, registry: Registry, limit: nat) {
    Held(c, dense, kind, registry, limit) && c.HeaderTells()
  }

  /** Direct words behind any header above the palette widths, as a foreign writer may put them. */
  ghost predicate ForeignDirect(input: Bytes, c: PalettedContainer, suffix: Bytes) {
    && c.storage.Direct? && input != [] && input[0] > c.kind.MaxBits()
    && input[1..] == PutAll(c.storage.ids.words, 8) + suffix
  }

  lemma WrittenParts(c: PalettedContainer, dense: seq<u32>)
    requires c.Shows(dense) && c.HeaderTells()
    ensures c.Bits() <= 31 && c.kind.NormalizedBits(c.Bits(), c.registry) == c.Bits()
    ensures c.storage.Single? <==> c.Bits() == 0
    ensures c.storage.Direct? <==> c.Bits() > c.kind.MaxBits()
    ensures c.storage.Indirect? ==> 1 <= |c.storage.palette| <= Pow(2, c.Bits()) && |c.storage.palette| <= 256
  {
    BitsSmall(c, dense);
    if c.storage.Direct? {
      HoldsShape(c.storage.ids, dense);
    }
  }

  /**
   Decodes one container and leaves the rest of the input. Whatever the bytes, a success
   shows valid cells within the allowance; and the bytes of any recoverable container give
   back that very container, with everything after it untouched. Direct words are taken
   behind every header above the palette widths, so what was read tells by its own header
   how it is stored exactly when it came as a palette or the registry outgrows palettes.
   */
  method ReadNetwork(input: Bytes, kind: Kind, registry: Registry, limit: nat,
                     ghost written: PalettedContainer, ghost shown: seq<u32>, ghost suffix: Bytes)
      returns (r: Result<(PalettedContainer, Bytes), SectionError>, ghost dense: seq<u32>)
    ensures r.Ok? ==> r.value.0.kind == kind && r.value.0.registry == registry && r.value.0.Shows(dense)
                      && r.value.0.HeapBytes() <= limit && IsTail(r.value.1, input)
    ensures Recoverable(written, shown, kind, registry, limit) && written.Bits() < 256 && input == NetworkBytes(written) + suffix
            ==> r == Ok((written, suffix)) && dense == shown
    ensures Held(written, shown, kind, registry, limit) && ForeignDirect(input, written, suffix)
            ==> r == Ok((written, suffix)) && dense == shown
    ensures r.Ok? ==> input != [] && (r.value.0.HeaderTells() <==> input[0] <= kind.MaxBits() || registry > Pow(2, kind.MaxBits()))
  {
    hide Pow, PackAll, Varint, Put, PutAll, Packed.Holds, RegistryBits, Varints, FirstUses;
    ghost var foreign := Held(written, shown, kind, registry, limit) && ForeignDirect(input, written, suffix);
    ghost var expected := Recoverable(written, shown, kind, registry, limit) && written.Bits() < 256 && input == NetworkBytes(written) + suffix;
    dense := [];
    if expected {
      WrittenParts(written, shown);
      assert input[0] == written.Bits();
    }
    if foreign {
      ForeignParts(written, shown, input, suffix);
    }
    if input == [] {
      return Err(Truncated), dense;
    }
    var header, cursor := input[0], input[1..];
    assert IsTail(cursor, input);
    if header == 0 {
      if expected {
        assert cursor == Varint(written.storage.value) + suffix;
      }
      var read := ReadInt(cursor);
      if read.Err? {
        return Err(read.error), dense;
      }
      var value := read.value.0;
      assert expected ==> shown[0] == value;
      if value >= registry {
        return Err(OutOfRange(value)), dense;
      }
      dense := seq(kind.Len(), _ => value);
      TailOfTail(input, cursor, read.value.1);
      if expected {
        assert dense == shown;
      }
      return Ok((PalettedContainer(kind, registry, Single(value)), read.value.1)), dense;
    }
    var bits := kind.NormalizedBits(header, registry);
    if bits == 0 {
      return Err(SectionError.InvalidBits(header)), dense;
    }
    HeaderBits(kind, registry, header);
    if header > kind.MaxBits() {
      if expected {
        assert cursor == PutAll(written.storage.ids.words, 8) + suffix;
      }
      r, dense := ReadDirect(input, cursor, kind, registry, bits, limit,
                             if expected || foreign then written.storage.ids else Packed(0, 0, []), shown, suffix);
      if r.Ok? {
        DirectHeaderMisleads(r.value.0, dense);
      }
    } else {
      if expected {
        assert cursor == Varint(|written.storage.palette|) + (Varints(written.storage.palette) + PutAll(written.storage.keys.words, 8) + suffix);
      }
      r, dense := ReadIndirect(input, cursor, kind, registry, bits, limit,
                               if expected then written.storage.palette else [], if expected then written.storage.keys else Packed(0, 0, []), shown, suffix);
    }
  }

  lemma ForeignParts(c: PalettedContainer, dense: seq<u32>, input: Bytes, suffix: Bytes)
    requires c.Shows(dense) && ForeignDirect(input, c, suffix)
    ensures input[0] != 0 && c.kind.NormalizedBits(input[0], c.registry) > 0
  {
    HoldsShape(c.storage.ids, dense);
  }

  lemma HeaderBits(kind: Kind, registry: Registry, header: u8)
    requires kind.NormalizedBits(header, registry) > 0
    ensures 1 <= kind.NormalizedBits(header, registry) <= 31
    ensures header > kind.MaxBits() ==> kind.NormalizedBits(header, registry) == RegistryBits(registry)
    ensures header <= kind.MaxBits() ==> kind.MinBits() <= kind.NormalizedBits(header, registry) <= kind.MaxBits()
  {
    RegistryFits(registry, 0);
  }

  method ReadDirect(input: Bytes, cursor: Bytes, kind: Kind, registry: Registry, bits: nat, limit: nat,
                    ghost ids: Packed, ghost shown: seq<u32>, ghost suffix: Bytes)
      returns (r: Result<(PalettedContainer, Bytes), SectionError>, ghost dense: seq<u32>)
    requires IsTail(cursor, input) && 1 <= bits <= 31 && bits == RegistryBits(registry)
    ensures r.Ok? ==> r.value.0.kind == kind && r.value.0.registry == registry && r.value.0.Shows(dense)
                      && r.value.0.HeapBytes() <= limit && IsTail(r.value.1, input)
    ensures r.Ok? ==> r.value.0.storage.Direct?
    ensures Held(PalettedContainer(kind, registry, Direct(ids)), shown, kind, registry, limit) && cursor == PutAll(ids.words, 8) + suffix
            ==> r == Ok((PalettedContainer(kind, registry, Direct(ids)), suffix)) && dense == shown
  {
    hide Pow, PackAll, Put, PutAll, Packed.Holds, RegistryBits;
    dense := [];
    PerWordFacts(bits);
    var count := WordCount(bits, kind.Len());
    ghost var expected := Held(PalettedContainer(kind, registry, Direct(ids)), shown, kind, registry, limit) && cursor == PutAll(ids.words, 8) + suffix;
    if expected {
      HeldLength(ids, shown);
    }
    if |cursor| < count * 8 {
      return Err(Truncated), dense;
    }
    var bytes, rest := cursor[..count * 8], cursor[count * 8..];
    if expected {
      assert bytes == PutAll(ids.words, 8) && rest == suffix;
    }
    var read, keys := ReadWords(bytes, bits, kind.Len(), registry, true, ids, shown);
    if read.Err? {
      return Err(read.error), dense;
    }
    HeldLength(read.value, keys);
    if count * 8 > limit {
      return Err(AllocationBudgetExceeded), dense;
    }
    dense := seq(|keys|, i requires 0 <= i < |keys| => (assert keys[i] < registry; keys[i]));
    assert dense == keys;
    ReadShows(kind, registry, Direct(read.value), keys, dense);
    if expected {
      HoldsUnique(ids, shown, keys);
    }
    TailOfTail(input, cursor, rest);
    r := Ok((PalettedContainer(kind, registry, Direct(read.value)), rest));
  }

  lemma HeldLength(p: Packed, cells: seq<nat>)
    requires p.Holds(cells)
    ensures p.len == |cells| && 1 <= p.bits <= 31 && 64 / p.bits > 0 && |p.words| == WordCount(p.bits, p.len)
    ensures |PutAll(p.words, 8)| == 8 * |p.words|
  {
    PerWordFacts(p.bits);
    PackAllLength(cells, p.Base(), p.PerWord());
    PutAllLength(p.words, 8);
  }

  lemma KeysBehind(c: PalettedContainer, dense: seq<u32>) returns (k: seq<nat>)
    requires c.Shows(dense) && c.storage.Indirect?
    ensures IsKeyed(c.storage.palette, c.storage.keys, k, dense) && c.storage.keys.len == c.kind.Len()
    ensures AllIn(c.storage.palette, c.registry)
  {
    k :| IsKeyed(c.storage.palette, c.storage.keys, k, dense);
  }

  /** What was read shows the cells its keys name. */
  lemma ReadShows(kind: Kind, registry: Registry, storage: Storage, k: seq<nat>, dense: seq<u32>)
    requires !storage.Single? && |k| == |dense| == kind.Len()
    requires storage.Direct? ==> storage.ids.Holds(k) && dense == k && AllBelow(k, registry) && storage.ids.bits == RegistryBits(registry)
    requires storage.Indirect? ==> (
      && storage.keys.Holds(k) && AllBelow(k, |storage.palette|) && AllIn(storage.palette, registry)
      && kind.MinBits() <= storage.keys.bits <= kind.MaxBits() && 1 <= |storage.palette| <= Pow(2, storage.keys.bits)
      && forall i :: 0 <= i < |k| ==> dense[i] == storage.palette[k[i]])
    ensures PalettedContainer(kind, registry, storage).Shows(dense)
  {
    HeldLength(if storage.Direct? then storage.ids else storage.keys, k);
    if storage.Indirect? {
      assert IsKeyed(storage.palette, storage.keys, k, dense);
      assert forall i :: 0 <= i < |k| ==> storage.palette[k[i]] in storage.palette;
    }
  }

  lemma SmallWrap(v: int)
    requires 0 <= v < 0x8000_0000
    ensures WrapI32(v) == v
  {
  }

  /** A palette: its length, between one and what the width allows, then its IDs. */
  method ReadPalette(input: Bytes, bits: nat, registry: Registry, ghost palette: seq<u32>, ghost rest: Bytes)
      returns (r: Result<(seq<u32>, Bytes), SectionError>)
    requires bits <= 31
    ensures r.Ok? ==> 1 <= |r.value.0| <= Pow(2, bits) && |r.value.0| < TWO_32 && AllIn(r.value.0, registry) && IsTail(r.value.1, input)
    ensures (1 <= |palette| <= Pow(2, bits) && |palette| <= 256 && AllIn(palette, registry)
             && input == Varint(|palette|) + (Varints(palette) + rest)) ==> r == Ok((palette, rest))
  {
    hide Pow, Varint, Varints, IsTail, WrapI32;
    SmallWrap(0);
    if |palette| <= 256 {
      SmallWrap(|palette|);
    }
    var counted := ReadInt(input);
    ReadIntTail(input, counted);
    if counted.Err? {
      return Err(counted.error);
    }
    var count := WrapI32(counted.value.0);
    if count < 1 || counted.value.0 > Pow(2, bits) {
      return Err(InvalidPaletteLength(count));
    }
    r := ReadIds(counted.value.1, counted.value.0, registry, palette, rest);
    if r.Ok? {
      TailOfTail(input, counted.value.1, r.value.1);
    }
  }

  method ReadIndirect(input: Bytes, cursor: Bytes, kind: Kind, registry: Registry, bits: nat, limit: nat,
                      ghost palette: seq<u32>, ghost keys: Packed, ghost shown: seq<u32>, ghost suffix: Bytes)
      returns (r: Result<(PalettedContainer, Bytes), SectionError>, ghost dense: seq<u32>)
    requires IsTail(cursor, input) && 1 <= bits <= 31 && kind.MinBits() <= bits <= kind.MaxBits()
    ensures r.Ok? ==> r.value.0.storage.Indirect?
    ensures r.Ok? ==> r.value.0.kind == kind && r.value.0.registry == registry && r.value.0.Shows(dense)
                      && r.value.0.HeapBytes() <= limit && IsTail(r.value.1, input)
    ensures Recoverable(PalettedContainer(kind, registry, Indirect(palette, keys)), shown, kind, registry, limit) && keys.bits == bits
            && |palette| < TWO_32 && cursor == Varint(|palette|) + (Varints(palette) + PutAll(keys.words, 8) + suffix)
            ==> r == Ok((PalettedContainer(kind, registry, Indirect(palette, keys)), suffix)) && dense == shown
  {
    hide Pow, PackAll, Varint, Put, PutAll, Packed.Holds, RegistryBits, Varints, PalettedContainer.Shows, IsTail;
    dense := [];
    PerWordFacts(bits);
    var count := WordCount(bits, kind.Len());
    ghost var c := PalettedContainer(kind, registry, Indirect(palette, keys));
    ghost var expected := Recoverable(c, shown, kind, registry, limit) && keys.bits == bits
      && |palette| < TWO_32 && cursor == Varint(|palette|) + (Varints(palette) + PutAll(keys.words, 8) + suffix);
    ghost var k: seq<nat> := [];
    if expected {
      WrittenParts(c, shown);
      k := KeysBehind(c, shown);
      HeldLength(keys, k);
    }
    ghost var packed := PutAll(keys.words, 8) + suffix;
    assert expected ==> Varints(palette) + PutAll(keys.words, 8) + suffix == Varints(palette) + packed;
    var ids := ReadPalette(cursor, bits, registry, palette, packed);
    if ids.Err? {
      return Err(ids.error), dense;
    }
    var found, tail := ids.value.0, ids.value.1;
    if |tail| < count * 8 {
      return Err(Truncated), dense;
    }
    var bytes, rest := tail[..count * 8], tail[count * 8..];
    if expected {
      assert bytes == PutAll(keys.words, 8) && rest == suffix;
    }
    var read, cells := ReadWords(bytes, bits, kind.Len(), |found|, false, keys, k);
    if read.Err? {
      return Err(read.error), dense;
    }
    HeldLength(read.value, cells);
    if count * 8 + Pow(2, bits) * 4 > limit {
      return Err(AllocationBudgetExceeded), dense;
    }
    dense := seq(|cells|, i requires 0 <= i < |cells| => (assert cells[i] < |found|; found[cells[i]]));
    ReadShows(kind, registry, Indirect(found, read.value), cells, dense);
    if expected {
      HoldsUnique(keys, k, cells);
      assert dense == shown;
    }
    TailOfTail(input, cursor, tail);
    SliceIsTail(tail, count * 8);
    TailOfTail(input, tail, rest);
    r := Ok((PalettedContainer(kind, registry, Indirect(found, read.value)), rest));
  }

  // ----- whole sections -----

  /** The bytes a compact container of these cells occupies. */
  function CompactHeap(kind: Kind, registry: Registry, input: seq<u32>): nat
    requires |input| == kind.Len() && AllIn(input, registry)
  {
    NeededIsUsable(kind, registry, input);
    var bits := NeededBits(input);
    if bits == 0 then 0
    else
      WidthInRangeOf(kind, registry, input, bits);
      BuildBytes(kind, registry, bits)
  }

  /** Every valid array of cells has a compact container, whose bytes are the encoder's. */
  lemma CompactExists(kind: Kind, registry: Registry, input: seq<u32>) returns (c: PalettedContainer)
    requires |input| == kind.Len() && AllIn(input, registry)
    ensures c.kind == kind && c.registry == registry && Compact(c, input, NeededBits(input)) && c.HeaderTells()
    ensures c.HeapBytes() == CompactHeap(kind, registry, input)
    ensures c.Bits() < 256 && NetworkBytes(c) == DenseBytes(kind, registry, input)
  {
    hide Pow, PackAll, FirstUses, PutAll, Varint;
    NeededIsUsable(kind, registry, input);
    var bits := NeededBits(input);
    if bits == 0 {
      SingleShows(kind, registry, input);
      c := PalettedContainer(kind, registry, Single(input[0]));
    } else {
      WidthInRange(kind, registry, bits);
      var width := kind.NormalizedBits(bits, registry);
      if bits > kind.MaxBits() {
        forall i | 0 <= i < |input| ensures input[i] < Pow(2, width) {
          assert input[i] in input;
          RegistryFits(registry, input[i]);
        }
        var p := PackedOf(input, width);
        DirectShows(kind, registry, p, input);
        c := PalettedContainer(kind, registry, Direct(p));
        PaletteSize(kind);
        FirstUsesInRegistry(input, registry);
        DirectHeaderIff(kind, registry);
      } else {
        forall i | 0 <= i < |input| ensures Paletted.KeysOf(input)[i] < Pow(2, width) {
          assert Paletted.KeysOf(input)[i] == Key(input, i);
        }
        var p := PackedOf(Paletted.KeysOf(input), width);
        IndirectShows(kind, registry, FirstUses(input), p, input);
        c := PalettedContainer(kind, registry, Indirect(FirstUses(input), p));
      }
    }
    EncoderAgrees(c, input);
  }

  lemma FirstUsesInRegistry(input: seq<u32>, registry: Registry)
    requires AllIn(input, registry)
    ensures |FirstUses(input)| <= registry
  {
    FirstUsesDistinct(input);
    forall v | v in FirstUses(input) ensures v < registry {
      FirstUsesMembers(input, v);
    }
    DistinctBelow(FirstUses(input), registry);
  }

  lemma PackedOf(cells: seq<nat>, bits: nat) returns (p: Packed)
    requires 1 <= bits <= 31 && 1 <= |cells| <= 4096 && forall i :: 0 <= i < |cells| ==> cells[i] < Pow(2, bits)
    ensures p.bits == bits && p.len == |cells| && p.Holds(cells) && 64 / bits > 0 && |p.words| == WordCount(bits, |cells|)
  {
    hide Pow, PackAll;
    PerWordFacts(bits);
    PackAllBounded(cells, bits, 64 / bits);
    PackAllLength(cells, Pow(2, bits), 64 / bits);
    var words := PackAll(cells, Pow(2, bits), 64 / bits);
    p := Packed(bits, |cells|, seq(|words|, i requires 0 <= i < |words| => words[i]));
    assert p.words == words;
  }

  datatype Section = Section(counts: SectionCounts, blocks: PalettedContainer, biomes: PalettedContainer)

  lemma CountsRoundTrip(counts: SectionCounts)
    ensures Take(CountBytes(counts)[..2]) == counts.nonEmptyBlocks && Take(CountBytes(counts)[2..4]) == counts.fluidBlocks
  {
    Widths();
    TakePut(counts.nonEmptyBlocks, 2);
    TakePut(counts.fluidBlocks, 2);
    assert CountBytes(counts)[..2] == Put(counts.nonEmptyBlocks, 2) && CountBytes(counts)[2..4] == Put(counts.fluidBlocks, 2);
  }

  /** Reads one section; the encoder's bytes give back the counts and every cell. */
  method ReadSection(input: Bytes, blockRegistry: Registry, biomeRegistry: Registry, limit: nat,
                     ghost counts: SectionCounts, ghost blocks: seq<u32>, ghost biomes: seq<u32>, ghost suffix: Bytes)
      returns (r: Result<(Section, Bytes), SectionError>, ghost blockCells: seq<u32>, ghost biomeCells: seq<u32>)
    requires |blocks| == 4096 && AllIn(blocks, blockRegistry) && |biomes| == 64 && AllIn(biomes, biomeRegistry)
    ensures r.Ok? ==> var s := r.value.0;
      && s.counts.Valid() && s.blocks.kind == Blocks && s.blocks.Shows(blockCells) && s.biomes.kind == Biomes && s.biomes.Shows(biomeCells)
      && s.blocks.HeapBytes() + s.biomes.HeapBytes() <= limit && IsTail(r.value.1, input)
    ensures (input == SectionBytes(counts, blocks, biomes, blockRegistry, biomeRegistry) + suffix && counts.Valid()
             && CompactHeap(Blocks, blockRegistry, blocks) + CompactHeap(Biomes, biomeRegistry, biomes) <= limit)
            ==> r.Ok? && r.value.0.counts == counts && r.value.1 == suffix && blockCells == blocks && biomeCells == biomes
  {
    hide DenseBytes, CountBytes, CompactHeap, NetworkBytes, PalettedContainer.Shows, PalettedContainer.HeapBytes, IsTail, Take, Put, Compact;
    blockCells, biomeCells := [], [];
    ghost var expected := input == SectionBytes(counts, blocks, biomes, blockRegistry, biomeRegistry) + suffix && counts.Valid()
      && CompactHeap(Blocks, blockRegistry, blocks) + CompactHeap(Biomes, biomeRegistry, biomes) <= limit;
    ghost var blockWas := CompactExists(Blocks, blockRegistry, blocks);
    ghost var biomeWas := CompactExists(Biomes, biomeRegistry, biomes);
    CompactShows(blockWas, blocks);
    CompactShows(biomeWas, biomes);
    ghost var biomeTail := DenseBytes(Biomes, biomeRegistry, biomes) + suffix;
    CountsSplit(counts, DenseBytes(Blocks, blockRegistry, blocks), DenseBytes(Biomes, biomeRegistry, biomes), suffix);
    if |input| < 4 {
      return Err(Truncated), blockCells, biomeCells;
    }
    Widths();
    TakeBound(input[..2]);
    TakeBound(input[2..4]);
    var read := SectionCounts(Take(input[..2]), Take(input[2..4]));
    if !read.Valid() {
      return Err(InvalidCounts), blockCells, biomeCells;
    }
    SliceIsTail(input, 4);
    var first;
    first, blockCells := ReadNetwork(input[4..], Blocks, blockRegistry, limit, blockWas, blocks, biomeTail);
    if first.Err? {
      return Err(first.error), blockCells, biomeCells;
    }
    var blockStore := first.value.0;
    var second;
    second, biomeCells := ReadNetwork(first.value.1, Biomes, biomeRegistry, limit - blockStore.HeapBytes(), biomeWas, biomes, suffix);
    if second.Err? {
      return Err(second.error), blockCells, biomeCells;
    }
    TailOfTail(input, input[4..], first.value.1);
    TailOfTail(input, first.value.1, second.value.1);
    r := Ok((Section(read, blockStore, second.value.0), second.value.1));
  }

  lemma CompactShows(c: PalettedContainer, input: seq<u32>)
    requires Compact(c, input, NeededBits(input))
    ensures c.Shows(input)
  {
  }

  lemma CountsSplit(counts: SectionCounts, a: Bytes, b: Bytes, suffix: Bytes)
    ensures var input := CountBytes(counts) + a + b + suffix;
      && |input| >= 4 && input[4..] == a + (b + suffix)
      && Take(input[..2]) == counts.nonEmptyBlocks && Take(input[2..4]) == counts.fluidBlocks
  {
    CountsRoundTrip(counts);
    var input := CountBytes(counts) + a + b + suffix;
    assert |CountBytes(counts)| == 4;
    assert input[..2] == CountBytes(counts)[..2] && input[2..4] == CountBytes(counts)[2..4];
  }

  // ----- the limit of the bit header -----

  /**
   Only a foreign writer stores a small registry's IDs directly, or repeats values in a
   palette until it must grow into direct storage. The width of that storage then reads as a
   palette's: its header no longer tells it apart, exactly when the registry has no more IDs
   than a full palette.
   */
  lemma DirectHeaderMisleads(c: PalettedContainer, dense: seq<u32>)
    requires c.Shows(dense) && c.storage.Direct?
    ensures !c.HeaderTells() <==> c.registry <= Pow(2, c.kind.MaxBits())
    ensures c.Bits() < 256 && (!c.HeaderTells() ==> NetworkBytes(c)[0] <= c.kind.MaxBits())
  {
    BitsSmall(c, dense);
    DirectHeaderIff(c.kind, c.registry);
  }

  /** Growing into one: a biome palette of eight zeros in a registry of two takes a one. */
  method MisleadingGrowth() returns (c: PalettedContainer, r: Result<u32, SectionError>, after: PalettedContainer, ghost dense: seq<u32>)
    ensures c.Shows(dense) && c.HeaderTells() && !c.DistinctPalette()
    ensures r == Ok(0) && after.Shows(dense[0 := 1]) && !after.HeaderTells()
  {
    hide Pow;
    Pow31();
    SmallPowers();
    dense := seq(64, _ => 0);
    var keys := NewPacked(3, 64, 32);
    var palette: seq<u32> := [0, 0, 0, 0, 0, 0, 0, 0];
    c := PalettedContainer(Biomes, 2, Indirect(palette, keys.value));
    assert IsKeyed(palette, keys.value, dense, dense);
    assert palette[0] == palette[1];
    r, after := Set(c, 0, 1, 72, dense);
  }

  lemma SmallPowers()
    ensures Pow(2, 1) == 2 && Pow(2, 3) == 8 && RegistryBits(2) == 1
  {
  }

  /** Reading one: 64 zero bits behind the header four, in a biome registry of two. */
  method ForeignHeader() returns (r: Result<(PalettedContainer, Bytes), SectionError>, ghost dense: seq<u32>)
    ensures r.Ok? && r.value.0.Shows(dense) && r.value.1 == [] && !r.value.0.HeaderTells()
    ensures r.value.0.Bits() < 256 && NetworkBytes(r.value.0)[0] == 1
  {
    hide Pow, PackAll, PutAll, Packed.Holds;
    SmallPowers();
    var ids := NewPacked(1, 64, 8);
    dense := seq(64, _ => 0);
    var c := PalettedContainer(Biomes, 2, Direct(ids.value));
    HoldsShape(ids.value, dense);
    var input := [4] + PutAll(ids.value.words, 8);
    assert input[1..] == PutAll(ids.value.words, 8) + [];
    r, dense := ReadNetwork(input, Biomes, 2, 8, c, dense, []);
  }
}
