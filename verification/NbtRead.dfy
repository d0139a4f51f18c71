/**
 Binary NBT input under two budgets: the logical heap quota and the requested backing
 bytes. What the writer produced comes back, whatever follows it.
 */
module NbtRead {
  import opened World
  import opened BigEndian
  import opened Nbt
  import opened NbtWrite
  import opened NbtCompound

  /** In-memory sizes of a tag and of a compound entry. */
  datatype Sizes = Sizes(tag: nat, entry: nat)

  // ----- what reading keeps of a tree -----

  /** NaNs are canonical, zeros positive; everything else is kept. */
  function Norm(tag: Tag): Tag
    decreases tag, 0
  {
    match tag
    case FloatTag(bits) => FloatTag(ReadZero32(Canon32(bits)))
    case DoubleTag(bits) => DoubleTag(ReadZero64(Canon64(bits)))
    case ListTag(values) => ListTag(NormAll(values))
    case CompoundTag(entries) => CompoundTag(NormEntries(entries))
    case _ => tag
  }

  function NormAll(values: seq<Tag>): (r: seq<Tag>)
    ensures |r| == |values|
    decreases values, 0
  {
    if values == [] then [] else [Norm(values[0])] + NormAll(values[1..])
  }

  function NormEntries(entries: seq<Entry>): (r: seq<Entry>)
    ensures |r| == |entries| && forall i :: 0 <= i < |entries| ==> r[i].name == entries[i].name
    decreases entries, 0
  {
    if entries == [] then [] else [Entry(entries[0].name, Norm(entries[0].value))] + NormEntries(entries[1..])
  }

  lemma {:induction false} NormAllAppend(values: seq<Tag>, v: Tag)
    ensures NormAll(values + [v]) == NormAll(values) + [Norm(v)]
  {
    if values == [] {
      assert [v][1..] == [];
    } else {
      NormAllAppend(values[1..], v);
      assert (values + [v])[1..] == values[1..] + [v];
    }
  }

  lemma {:induction false} NormEntriesAppend(entries: seq<Entry>, e: Entry)
    ensures NormEntries(entries + [e]) == NormEntries(entries) + [Entry(e.name, Norm(e.value))]
  {
    if entries == [] {
      assert [e][1..] == [];
    } else {
      NormEntriesAppend(entries[1..], e);
      assert (entries + [e])[1..] == entries[1..] + [e];
    }
  }

  // ----- what reading costs -----

  /** Logical heap quota of a payload. */
  function Quota(tag: Tag): nat
    decreases tag, 0
  {
    match tag
    case End => 0
    case ByteTag(_) => 9
    case ShortTag(_) => 10
    case IntTag(_) => 12
    case LongTag(_) => 16
    case FloatTag(_) => 12
    case DoubleTag(_) => 16
    case ByteArray(v) => 24 + |v|
    case StringTag(units) => 36 + 2 * |units|
    case ListTag(values) => 36 + 4 * |values| + QuotaValues(values, if ElementType(values).Ok? then ElementType(values).value else 0)
    case CompoundTag(entries) => 48 + QuotaEntries(entries) + 36 * |entries|
    case IntArray(v) => 24 + 4 * |v|
    case LongArray(v) => 24 + 8 * |v|
  }

  function QuotaValues(values: seq<Tag>, raw: u8): nat
    decreases values, 0
  {
    if values == [] then 0
    else (if NeedsWrapper(raw, values[0]) then 112 else 0) + Quota(values[0]) + QuotaValues(values[1..], raw)
  }

  function QuotaEntries(entries: seq<Entry>): nat
    decreases entries, 0
  {
    if entries == [] then 0 else 28 + 2 * |entries[0].name| + Quota(entries[0].value) + QuotaEntries(entries[1..])
  }

  function Times(count: nat, each: nat): nat {
    count * each
  }

  /** Capacity of the entry vector after `n` pushes. */
  function Capacity(n: nat): nat {
    if n == 0 then 0 else if n - 1 == Capacity(n - 1) then Grown(n - 1) else Capacity(n - 1)
  }

  function Grown(len: nat): nat {
    if len > 4 then 2 * len else 8
  }

  /** Bytes requested by the push after `n` entries: a whole new buffer when the old is full. */
  function GrowthBytes(n: nat, sizes: Sizes): nat {
    if n == Capacity(n) then Times(Grown(n), sizes.entry) else 0
  }

  function Alloc(tag: Tag, sizes: Sizes): nat
    decreases tag, 0
  {
    match tag
    case ByteArray(v) => |v|
    case StringTag(units) => 2 * |units|
    case ListTag(values) => Times(|values|, sizes.tag) + AllocValues(values, if ElementType(values).Ok? then ElementType(values).value else 0, sizes)
    case CompoundTag(entries) => AllocEntries(entries, 0, sizes)
    case IntArray(v) => 4 * |v|
    case LongArray(v) => 8 * |v|
    case _ => 0
  }

  function AllocValues(values: seq<Tag>, raw: u8, sizes: Sizes): nat
    decreases values, 0
  {
    if values == [] then 0
    else (if NeedsWrapper(raw, values[0]) then GrowthBytes(0, sizes) else 0) + Alloc(values[0], sizes) + AllocValues(values[1..], raw, sizes)
  }

  function AllocEntries(entries: seq<Entry>, n: nat, sizes: Sizes): nat
    decreases entries, 0
  {
    if entries == [] then 0
    else 2 * |entries[0].name| + Alloc(entries[0].value, sizes) + GrowthBytes(n, sizes) + AllocEntries(entries[1..], n + 1, sizes)
  }

  // ----- list elements as they travel -----

  function Wire(value: Tag, raw: u8): Tag {
    if NeedsWrapper(raw, value) then CompoundTag([Entry([], value)]) else value
  }

  /** A wrapped element is written, sized, charged and read exactly as a one-entry compound. */
  lemma WireFacts(value: Tag, raw: u8, depth: nat, used: nat, limits: Limits, sizes: Sizes)
    requires !value.End? && Canonical(value)
    ensures Canonical(Wire(value, raw)) && PayloadBytes(Wire(value, raw)) == ValueBytes(value, raw)
    ensures SizeTag(Wire(value, raw), depth, used, limits) == SizeValue(value, raw, depth, used, limits)
    ensures Quota(Wire(value, raw)) == (if NeedsWrapper(raw, value) then 112 else 0) + Quota(value)
    ensures Alloc(Wire(value, raw), sizes) == (if NeedsWrapper(raw, value) then GrowthBytes(0, sizes) else 0) + Alloc(value, sizes)
  {
    if NeedsWrapper(raw, value) {
      WrapperBytes(value);
      WrapperSize(value, depth, used, limits);
      WrapperCost(value, sizes);
    }
  }

  lemma WrapperBytes(value: Tag)
    ensures PayloadBytes(CompoundTag([Entry([], value)])) == [value.Id()] + [0, 0] + PayloadBytes(value) + [0]
  {
    var e := Entry([], value);
    assert [e][1..] == [];
    WrapperHead(value);
    assert EntriesBytes([e]) == EntryHeadBytes(e) + PayloadBytes(value) + EntriesBytes([]);
  }

  lemma WrapperSize(value: Tag, depth: nat, used: nat, limits: Limits)
    requires !value.End?
    ensures SizeTag(CompoundTag([Entry([], value)]), depth, used, limits) ==
      if depth >= limits.maxDepth then Err(DepthLimit)
      else
        var head := SizeWrapperHead(depth, used, limits);
        if head.Err? then head
        else
          var inner := SizeTag(value, depth + 1, head.value, limits);
          if inner.Err? then inner else Add(inner.value, 1, limits)
  {
    var e := Entry([], value);
    assert [e][1..] == [];
    EmptyUnits();
    assert SizeEntryHead(e, used, limits) == SizeWrapperHead(depth, used, limits) || depth >= limits.maxDepth;
    var head := SizeEntryHead(e, used, limits);
    if head.Ok? {
      var inner := SizeTag(value, depth + 1, head.value, limits);
      assert inner.Ok? ==> SizeEntries([], depth + 1, inner.value, limits) == Add(inner.value, 1, limits);
    }
  }

  lemma WrapperCost(value: Tag, sizes: Sizes)
    ensures Quota(CompoundTag([Entry([], value)])) == 112 + Quota(value)
    ensures Alloc(CompoundTag([Entry([], value)]), sizes) == GrowthBytes(0, sizes) + Alloc(value, sizes)
  {
    var e := Entry([], value);
    assert [e][1..] == [];
    assert QuotaEntries([e]) == 28 + Quota(value) + QuotaEntries([]);
    assert AllocEntries([e], 0, sizes) == Alloc(value, sizes) + GrowthBytes(0, sizes) + AllocEntries([], 1, sizes);
  }

  lemma WrapperHead(value: Tag)
    ensures EntryHeadBytes(Entry([], value)) == [value.Id()] + [0, 0] && |Mutf8([])| == 0
  {
    EmptyUnits();
    assert Put(0, 2) == Put(0, 1) + [0] && Put(0, 1) == [] + [0];
    assert StringBytes([]) == [0, 0] + Mutf8([]);
  }

  /** Unwrapping what was read restores the element. */
  lemma UnwrapNorm(value: Tag, raw: u8)
    requires !value.End?
    ensures var read := Norm(Wire(value, raw));
      Norm(value) == if raw == 10 && read.IsWrapper() then read.entries[0].value else read
    ensures raw != 10 ==> Wire(value, raw) == value
  {
    if NeedsWrapper(raw, value) {
      assert [Entry([], value)][1..] == [];
    }
  }

  // ----- smallest payloads -----

  function MinimumWidth(id: u8): nat {
    if id == 2 || id == 8 then 2
    else if id == 3 || id == 5 || id == 7 || id == 11 || id == 12 then 4
    else if id == 4 || id == 6 then 8
    else if id == 9 then 5
    else 1
  }

  lemma WidthOfPayload(tag: Tag, depth: nat, used: nat, limits: Limits)
    requires !tag.End? && SizeTag(tag, depth, used, limits).Ok?
    ensures |PayloadBytes(tag)| >= MinimumWidth(tag.Id())
  {
    if tag.CompoundTag? && tag.entries != [] {
      assert |PayloadBytes(tag)| >= |EntryHeadBytes(tag.entries[0])| >= 1;
    }
  }

  /** The declared count never promises less than the bytes that are there. */
  lemma {:induction false} WidthOfValues(values: seq<Tag>, raw: u8, depth: nat, used: nat, limits: Limits)
    requires SizeValues(values, raw, depth, used, limits).Ok?
    requires forall i :: 0 <= i < |values| ==> !values[i].End? && (raw == 10 || values[i].Id() == raw)
    ensures |ValuesBytes(values, raw)| >= Times(|values|, MinimumWidth(raw))
    decreases values, 0
  {
    if values != [] {
      var value := values[0];
      if NeedsWrapper(raw, value) {
        assert |ValueBytes(value, raw)| >= 1;
      } else {
        WidthOfPayload(value, depth, used, limits);
      }
      WidthOfValues(values[1..], raw, depth, SizeValue(value, raw, depth, used, limits).value, limits);
      assert Times(|values|, MinimumWidth(raw)) == MinimumWidth(raw) + Times(|values| - 1, MinimumWidth(raw));
    }
  }

  /** Elements of a sized list are not End and have the list's type. */
  lemma ElementFacts(values: seq<Tag>)
    requires ElementType(values).Ok?
    ensures forall i :: 0 <= i < |values| ==> !values[i].End?
    ensures var raw := ElementType(values).value;
      (forall i :: 0 <= i < |values| ==> raw == 10 || values[i].Id() == raw) && (values != [] ==> 1 <= raw <= 12)
  {
  }

  // ----- canonical results -----

  lemma {:induction false} NormCanonical(tag: Tag)
    requires Canonical(tag)
    ensures Canonical(Norm(tag)) && Norm(tag).Id() == tag.Id()
    decreases tag, 0
  {
    match tag
    case ListTag(values) => NormAllCanonical(values);
    case CompoundTag(entries) => NormEntriesCanonical(entries);
    case _ =>
  }

  lemma {:induction false} NormAllCanonical(values: seq<Tag>)
    requires forall v :: v in values ==> Canonical(v)
    ensures forall v :: v in NormAll(values) ==> Canonical(v)
    decreases values, 0
  {
    if values != [] {
      NormCanonical(values[0]);
      NormAllCanonical(values[1..]);
    }
  }

  lemma {:induction false} NormEntriesCanonical(entries: seq<Entry>)
    requires forall e :: e in entries ==> Canonical(e.value)
    ensures forall e :: e in NormEntries(entries) ==> Canonical(e.value)
    ensures Ascending(entries) ==> Ascending(NormEntries(entries))
    decreases entries, 0
  {
    if entries != [] {
      NormCanonical(entries[0].value);
      NormEntriesCanonical(entries[1..]);
    }
  }

  // ----- the reader -----

  ghost predicate IsSuffix(rest: Bytes, input: Bytes) {
    |rest| <= |input| && forall i :: 0 <= i < |rest| ==> rest[i] == input[|input| - |rest| + i]
  }

  lemma SuffixChain(a: Bytes, b: Bytes, c: Bytes)
    requires IsSuffix(b, a) && IsSuffix(c, b)
    ensures IsSuffix(c, a)
  {
  }

  /** The input starts with a written payload of this type, within what the reader may still spend. */
  ghost predicate Expects(input: Bytes, quota: nat, allocation: nat, limits: Limits, sizes: Sizes,
                          want: Tag, id: u8, depth: nat, rest: Bytes, used: nat, written: Limits)
  {
    && !want.End? && want.Id() == id && Canonical(want)
    && written.maxDepth <= limits.maxDepth && SizeTag(want, depth, used, written).Ok?
    && input == PayloadBytes(want) + rest
    && quota + Quota(want) <= limits.quota && allocation + Alloc(want, sizes) <= limits.allocation
  }

  /** The rest of a written list: elements in wire form, then whatever follows. */
  ghost predicate ListExpects(input: Bytes, quota: nat, allocation: nat, limits: Limits, sizes: Sizes,
                              values: seq<Tag>, raw: u8, depth: nat, rest: Bytes, used: nat, written: Limits)
  {
    && (forall i :: 0 <= i < |values| ==> !values[i].End? && Canonical(values[i]) && (raw == 10 || values[i].Id() == raw))
    && written.maxDepth <= limits.maxDepth && SizeValues(values, raw, depth, used, written).Ok?
    && input == ValuesBytes(values, raw) + rest
    && quota + QuotaValues(values, raw) <= limits.quota && allocation + AllocValues(values, raw, sizes) <= limits.allocation
  }

  lemma ListStep(input: Bytes, quota: nat, allocation: nat, limits: Limits, sizes: Sizes,
                 values: seq<Tag>, raw: u8, depth: nat, rest: Bytes, used: nat, written: Limits)
    requires values != [] && ListExpects(input, quota, allocation, limits, sizes, values, raw, depth, rest, used, written)
    ensures var wire := Wire(values[0], raw);
      var tail := ValuesBytes(values[1..], raw) + rest;
      && !values[0].End? && Expects(input, quota, allocation, limits, sizes, wire, raw, depth, tail, used, written)
      && ListExpects(tail, quota + Quota(wire), allocation + Alloc(wire, sizes), limits, sizes, values[1..], raw, depth, rest,
                     SizeTag(wire, depth, used, written).value, written)
      && QuotaValues(values, raw) == Quota(wire) + QuotaValues(values[1..], raw)
      && AllocValues(values, raw, sizes) == Alloc(wire, sizes) + AllocValues(values[1..], raw, sizes)
  {
    WireFacts(values[0], raw, depth, used, written, sizes);
    var wire := Wire(values[0], raw);
    var tail := ValuesBytes(values[1..], raw) + rest;
    assert input == PayloadBytes(wire) + tail;
  }

  /** The rest of a written compound. */
  ghost predicate EntriesExpect(input: Bytes, quota: nat, allocation: nat, limits: Limits, sizes: Sizes,
                                entries: seq<Entry>, n: nat, depth: nat, rest: Bytes, used: nat, written: Limits)
  {
    && (forall e :: e in entries ==> Canonical(e.value))
    && written.maxDepth <= limits.maxDepth && SizeEntries(entries, depth, used, written).Ok?
    && input == EntriesBytes(entries) + rest
    && quota + QuotaEntries(entries) <= limits.quota && allocation + AllocEntries(entries, n, sizes) <= limits.allocation
  }

  lemma EntryStep(input: Bytes, quota: nat, allocation: nat, limits: Limits, sizes: Sizes,
                  entries: seq<Entry>, n: nat, depth: nat, rest: Bytes, used: nat, written: Limits)
    requires entries != [] && EntriesExpect(input, quota, allocation, limits, sizes, entries, n, depth, rest, used, written)
    ensures var e := entries[0];
      var tail := EntriesBytes(entries[1..]) + rest;
      && !e.value.End? && |Mutf8(e.name)| <= 0xffff && SizeEntryHead(e, used, written).Ok?
      && input == [e.value.Id()] + (StringBytes(e.name) + (PayloadBytes(e.value) + tail))
      && Expects(PayloadBytes(e.value) + tail, quota + 28 + 2 * |e.name|, allocation + 2 * |e.name|, limits, sizes,
                 e.value, e.value.Id(), depth, tail, SizeEntryHead(e, used, written).value, written)
      && SizeTag(e.value, depth, SizeEntryHead(e, used, written).value, written).Ok?
      && EntriesExpect(tail, quota + 28 + 2 * |e.name| + Quota(e.value), allocation + 2 * |e.name| + Alloc(e.value, sizes) + GrowthBytes(n, sizes),
                       limits, sizes, entries[1..], n + 1, depth, rest, SizeTag(e.value, depth, SizeEntryHead(e, used, written).value, written).value, written)
      && QuotaEntries(entries) == 28 + 2 * |e.name| + Quota(e.value) + QuotaEntries(entries[1..])
      && AllocEntries(entries, n, sizes) == 2 * |e.name| + Alloc(e.value, sizes) + GrowthBytes(n, sizes) + AllocEntries(entries[1..], n + 1, sizes)
  {
    hide Put, Mutf8, GrowthBytes;
    var e := entries[0];
    var tail := EntriesBytes(entries[1..]) + rest;
    assert e in entries;
    assert EntriesBytes(entries) == EntryHeadBytes(e) + PayloadBytes(e.value) + EntriesBytes(entries[1..]);
    assert input == [e.value.Id()] + (StringBytes(e.name) + (PayloadBytes(e.value) + tail));
  }

  lemma EntriesEnd(input: Bytes, quota: nat, allocation: nat, limits: Limits, sizes: Sizes,
                   n: nat, depth: nat, rest: Bytes, used: nat, written: Limits)
    requires EntriesExpect(input, quota, allocation, limits, sizes, [], n, depth, rest, used, written)
    ensures input == [0] + rest && QuotaEntries([]) == 0 && AllocEntries([], n, sizes) == 0
  {
  }

  /** What a sized scalar, string or array promises the reader. */
  lemma ScalarFacts(want: Tag, depth: nat, used: nat, written: Limits, sizes: Sizes)
    requires SizeTag(want, depth, used, written).Ok?
    ensures want.StringTag? ==> |Mutf8(want.units)| <= 0xffff && PayloadBytes(want) == StringBytes(want.units)
                                && Quota(want) == 36 + 2 * |want.units| && Alloc(want, sizes) == 2 * |want.units|
    ensures ArrayCount(want) <= I32_MAX && (1 <= want.Id() <= 6 ==> Alloc(want, sizes) == 0)
    ensures !want.ListTag? && !want.CompoundTag? && !want.FloatTag? && !want.DoubleTag? ==> Norm(want) == want
  {
    hide Put, Mutf8;
  }

  /** A written list header, affordable and backed by enough bytes. */
  ghost predicate HeadExpects(input: Bytes, quota: nat, allocation: nat, limits: Limits, sizes: Sizes, raw: u8, count: nat, rest: Bytes) {
    && input == [raw] + (Put(count, 4) + rest) && count <= I32_MAX && (count != 0 ==> 1 <= raw <= 12)
    && Times(count, MinimumWidth(raw)) <= |rest|
    && quota + 36 + 4 * count <= limits.quota && allocation + Times(count, sizes.tag) <= limits.allocation
  }

  lemma HeadReady(input: Bytes, quota: nat, allocation: nat, limits: Limits, sizes: Sizes, raw: u8, count: nat, rest: Bytes)
    requires input == [raw] + (Put(count, 4) + rest) && count <= I32_MAX && (count != 0 ==> 1 <= raw <= 12)
    requires Times(count, MinimumWidth(raw)) <= |rest|
    requires quota + 36 + 4 * count <= limits.quota && allocation + Times(count, sizes.tag) <= limits.allocation
    ensures HeadExpects(input, quota, allocation, limits, sizes, raw, count, rest)
  {
    hide Put, Times, MinimumWidth;
  }

  /** A written list starts with its type and count, and its elements follow. */
  lemma ListHead(input: Bytes, quota: nat, allocation: nat, limits: Limits, sizes: Sizes,
                 want: Tag, depth: nat, rest: Bytes, used: nat, written: Limits)
    requires Expects(input, quota, allocation, limits, sizes, want, 9, depth, rest, used, written)
    ensures want.ListTag? && ElementType(want.values).Ok? && depth < limits.maxDepth && SizeListHead(want.values, depth, used, written).Ok?
    ensures var values, raw := want.values, ElementType(want.values).value;
      var body := ValuesBytes(values, raw) + rest;
      && HeadExpects(input, quota, allocation, limits, sizes, raw, |values|, body)
      && Quota(want) == 36 + 4 * |values| + QuotaValues(values, raw)
      && Alloc(want, sizes) == Times(|values|, sizes.tag) + AllocValues(values, raw, sizes)
      && quota + Quota(want) <= limits.quota && allocation + Alloc(want, sizes) <= limits.allocation
      && ListExpects(body, quota + 36 + 4 * |values|, allocation + Times(|values|, sizes.tag), limits, sizes, values, raw, depth + 1, rest,
                     SizeListHead(values, depth, used, written).value, written)
      && Norm(want) == ListTag(NormAll(values))
  {
    hide *;
    ExpectsParts(input, quota, allocation, limits, sizes, want, 9, depth, rest, used, written);
    ListShape(want, depth, used, written, sizes);
    var values, raw := want.values, ElementType(want.values).value;
    ElementFacts(values);
    var inner := SizeListHead(values, depth, used, written).value;
    WidthOfValues(values, raw, depth + 1, inner, written);
    var body := ValuesBytes(values, raw) + rest;
    assert [raw] + Put(|values|, 4) + ValuesBytes(values, raw) + rest == [raw] + (Put(|values|, 4) + body);
    HeadReady(input, quota, allocation, limits, sizes, raw, |values|, body);
    ListReady(body, quota + 36 + 4 * |values|, allocation + Times(|values|, sizes.tag), limits, sizes, values, raw, depth + 1, rest, inner, written);
  }

  lemma ListShape(want: Tag, depth: nat, used: nat, written: Limits, sizes: Sizes)
    requires want.Id() == 9 && SizeTag(want, depth, used, written).Ok? && Canonical(want)
    ensures want.ListTag? && ElementType(want.values).Ok? && depth < written.maxDepth && |want.values| <= I32_MAX
    ensures SizeListHead(want.values, depth, used, written).Ok?
    ensures var values, raw := want.values, ElementType(want.values).value;
      && SizeValues(values, raw, depth + 1, SizeListHead(values, depth, used, written).value, written).Ok?
      && PayloadBytes(want) == [raw] + Put(|values|, 4) + ValuesBytes(values, raw)
      && Quota(want) == 36 + 4 * |values| + QuotaValues(values, raw)
      && Alloc(want, sizes) == Times(|values|, sizes.tag) + AllocValues(values, raw, sizes)
      && Norm(want) == ListTag(NormAll(values))
    ensures forall i :: 0 <= i < |want.values| ==> Canonical(want.values[i])
  {
    hide Put, ElementType;
  }

  lemma ExpectsParts(input: Bytes, quota: nat, allocation: nat, limits: Limits, sizes: Sizes,
                     want: Tag, id: u8, depth: nat, rest: Bytes, used: nat, written: Limits)
    requires Expects(input, quota, allocation, limits, sizes, want, id, depth, rest, used, written)
    ensures want.Id() == id && Canonical(want) && written.maxDepth <= limits.maxDepth && SizeTag(want, depth, used, written).Ok?
    ensures input == PayloadBytes(want) + rest
    ensures quota + Quota(want) <= limits.quota && allocation + Alloc(want, sizes) <= limits.allocation
  {
    hide PayloadBytes, Quota, Alloc, SizeTag, Canonical;
  }

  lemma ListReady(input: Bytes, quota: nat, allocation: nat, limits: Limits, sizes: Sizes,
                  values: seq<Tag>, raw: u8, depth: nat, rest: Bytes, used: nat, written: Limits)
    requires forall i :: 0 <= i < |values| ==> !values[i].End? && Canonical(values[i]) && (raw == 10 || values[i].Id() == raw)
    requires written.maxDepth <= limits.maxDepth && SizeValues(values, raw, depth, used, written).Ok?
    requires input == ValuesBytes(values, raw) + rest
    requires quota + QuotaValues(values, raw) <= limits.quota && allocation + AllocValues(values, raw, sizes) <= limits.allocation
    ensures ListExpects(input, quota, allocation, limits, sizes, values, raw, depth, rest, used, written)
  {
    hide ValuesBytes, QuotaValues, AllocValues, SizeValues;
  }

  lemma ListEnd(input: Bytes, quota: nat, allocation: nat, limits: Limits, sizes: Sizes,
                raw: u8, depth: nat, rest: Bytes, used: nat, written: Limits)
    requires ListExpects(input, quota, allocation, limits, sizes, [], raw, depth, rest, used, written)
    ensures input == rest && QuotaValues([], raw) == 0 && AllocValues([], raw, sizes) == 0
  {
  }

  /** A written compound is its entries, then the end byte. */
  lemma CompoundHead(input: Bytes, quota: nat, allocation: nat, limits: Limits, sizes: Sizes,
                     want: Tag, depth: nat, rest: Bytes, used: nat, written: Limits)
    requires Expects(input, quota, allocation, limits, sizes, want, 10, depth, rest, used, written)
    ensures want.CompoundTag? && depth < limits.maxDepth && Ascending(want.entries)
    ensures Quota(want) == 48 + QuotaEntries(want.entries) + 36 * |want.entries|
    ensures Alloc(want, sizes) == AllocEntries(want.entries, 0, sizes) && Norm(want) == CompoundTag(NormEntries(want.entries))
    ensures quota + Quota(want) <= limits.quota
    ensures EntriesExpect(input, quota + 48, allocation, limits, sizes, want.entries, 0, depth + 1, rest, used, written)
  {
    hide Ascending;
  }

  /** Every entry a lookup can reach is canonical if all were. */
  lemma LookedUpCanonical(entries: seq<Entry>, r: seq<Entry>)
    requires forall e :: e in entries ==> Canonical(e.value)
    requires Ascending(r) && forall name :: Lookup(r, name) == Lookup(entries, name)
    ensures Canonical(CompoundTag(r))
  {
    forall e | e in r ensures Canonical(e.value) {
      var i :| 0 <= i < |r| && r[i] == e;
      LookupAt(r, i);
      assert Lookup(r, e.name) == Lookup(entries, e.name);
      LookupFound(entries, e.name);
    }
  }

  lemma ListCanonical(values: seq<Tag>)
    requires forall v :: v in values ==> Canonical(v)
    ensures Canonical(ListTag(values))
  {
  }

  function FloatOf(id: u8, bits: nat): (r: Tag)
    requires (id == 5 && bits < Span(4)) || (id == 6 && bits < Span(8))
    ensures r.Id() == id && Canonical(r)
  {
    Widths();
    if id == 5 then FloatTag(ReadZero32(bits)) else DoubleTag(ReadZero64(bits))
  }

  function IntegerTag(id: u8, value: int): (r: Tag)
    requires 1 <= id <= 4
    requires var half := Span(if id == 1 then 1 else if id == 2 then 2 else if id == 3 then 4 else 8) / 2; -half <= value < half
    ensures r.Id() == id && Canonical(r)
  {
    Widths();
    if id == 1 then ByteTag(value) else if id == 2 then ShortTag(value) else if id == 3 then IntTag(value) else LongTag(value)
  }

  ghost function BitsOf(tag: Tag): nat {
    if tag.FloatTag? then Canon32(tag.float) else if tag.DoubleTag? then Canon64(tag.double) else 0
  }

  ghost function IntegerOf(tag: Tag): int {
    match tag
    case ByteTag(v) => v
    case ShortTag(v) => v
    case IntTag(v) => v
    case LongTag(v) => v
    case _ => 0
  }

  lemma StringShape(units: Units, rest: Bytes)
    ensures StringBytes(units) + rest == Put(|Mutf8(units)|, 2) + (Mutf8(units) + rest) && Span(2) == 0x10000
  {
    hide Put, Mutf8;
    Widths();
  }

  /** How each numeric type travels, what it costs and how it is rebuilt. */
  lemma ScalarShape(id: u8, want: Tag)
    requires 1 <= id <= 6
    ensures var width := if id == 1 then 1 else if id == 2 then 2 else if id == 3 || id == 5 then 4 else 8;
      Span(width) % 2 == 0
      && (want.Id() == id ==>
            && Quota(want) == (if id == 1 then 9 else if id == 2 then 10 else if id == 3 || id == 5 then 12 else 16)
            && (id <= 4 ==> -(Span(width) / 2) <= IntegerOf(want) < Span(width) / 2 && Unsigned(IntegerOf(want), width) >= 0
                            && PayloadBytes(want) == Put(Unsigned(IntegerOf(want), width), width) && Norm(want) == IntegerTag(id, IntegerOf(want)))
            && (id > 4 ==> BitsOf(want) < Span(width) && PayloadBytes(want) == Put(BitsOf(want), width) && Norm(want) == FloatOf(id, BitsOf(want))))
  {
    hide Put, Canon32, Canon64, ReadZero32, ReadZero64;
    Widths();
  }

  class Reader {
    var input: Bytes
    const limits: Limits
    const sizes: Sizes
    var quota: nat
    var allocation: nat

    constructor (input: Bytes, limits: Limits, sizes: Sizes)
      ensures Valid() && this.input == input && this.limits == limits && this.sizes == sizes && quota == 0 && allocation == 0
    {
      this.input, this.limits, this.sizes, quota, allocation := input, limits, sizes, 0, 0;
    }

    ghost predicate Valid() reads `quota, `allocation {
      quota <= limits.quota && allocation <= limits.allocation
    }

    lemma Within()
      requires Valid()
      ensures quota <= limits.quota && allocation <= limits.allocation
    {
    }

    method Pull(count: nat) returns (r: Result<Bytes, NbtError>)
      modifies `input
      ensures count > |old(input)| ==> r == Err(Truncated) && input == old(input)
      ensures count <= |old(input)| ==> r == Ok(old(input)[..count]) && input == old(input)[count..]
      ensures IsSuffix(input, old(input))
    {
      if count > |input| {
        return Err(Truncated);
      }
      r := Ok(input[..count]);
      input := input[count..];
    }

    /** An unsigned big-endian number. */
    method Number(width: nat, ghost want: nat, ghost rest: Bytes) returns (r: Result<nat, NbtError>)
      modifies `input
      ensures IsSuffix(input, old(input)) && (r.Ok? ==> r.value < Span(width) && |input| + width == |old(input)|)
      ensures want < Span(width) && old(input) == Put(want, width) + rest ==> r == Ok(want) && input == rest
    {
      ghost var before := input;
      var bytes := Pull(width);
      if want < Span(width) && before == Put(want, width) + rest {
        assert before[..width] == Put(want, width) && before[width..] == rest;
        TakePut(want, width);
      }
      if bytes.Err? {
        return Err(bytes.error);
      }
      TakeBound(bytes.value);
      r := Ok(Take(bytes.value));
    }

    /** A signed number of `width` bytes. */
    method SignedNumber(width: nat, ghost want: int, ghost rest: Bytes) returns (r: Result<int, NbtError>)
      requires Span(width) % 2 == 0
      modifies `input
      ensures IsSuffix(input, old(input)) && (r.Ok? ==> -(Span(width) / 2) <= r.value < Span(width) / 2 && |input| + width == |old(input)|)
      ensures -(Span(width) / 2) <= want < Span(width) / 2 && Unsigned(want, width) >= 0 && old(input) == Put(Unsigned(want, width), width) + rest
              ==> r == Ok(want) && input == rest
    {
      hide Put, Span;
      ghost var unsigned: nat := if Unsigned(want, width) >= 0 then Unsigned(want, width) else 0;
      var n := Number(width, unsigned, rest);
      if -(Span(width) / 2) <= want < Span(width) / 2 {
        SignedUnsigned(want, width);
      }
      if n.Err? {
        return Err(n.error);
      }
      r := Ok(Signed(n.value, width));
    }

    /** A length field; negative ones are refused. */
    method Count(ghost want: nat, ghost rest: Bytes) returns (r: Result<nat, NbtError>)
      modifies `input
      ensures IsSuffix(input, old(input)) && (r.Ok? ==> r.value <= I32_MAX && |input| + 4 == |old(input)|)
      ensures want <= I32_MAX && old(input) == Put(want, 4) + rest ==> r == Ok(want) && input == rest
    {
      hide Put;
      Widths();
      var n := SignedNumber(4, want, rest);
      if n.Err? {
        return Err(n.error);
      }
      if n.value < 0 {
        return Err(NegativeLength(n.value));
      }
      r := Ok(n.value);
    }

    method Account(bytes: nat) returns (r: Result<(), NbtError>)
      requires Valid()
      modifies `quota
      ensures r == if old(quota) + bytes <= limits.quota then Ok(()) else Err(VanillaQuotaExceeded)
      ensures r.Ok? ==> Valid() && quota == old(quota) + bytes
      ensures r.Err? ==> quota == old(quota)
    {
      if quota + bytes > limits.quota {
        return Err(VanillaQuotaExceeded);
      }
      quota := quota + bytes;
      r := Ok(());
    }

    method Allocate(bytes: nat) returns (r: Result<(), NbtError>)
      requires Valid()
      modifies `allocation
      ensures r == if old(allocation) + bytes <= limits.allocation then Ok(()) else Err(AllocationBudgetExceeded)
      ensures r.Ok? ==> Valid() && allocation == old(allocation) + bytes
      ensures r.Err? ==> allocation == old(allocation)
    {
      if allocation + bytes > limits.allocation {
        return Err(AllocationBudgetExceeded);
      }
      allocation := allocation + bytes;
      r := Ok(());
    }

    /** A length-prefixed string: its bytes are validated before anything is charged. */
    method String(accountUnits: bool, ghost want: Units, ghost rest: Bytes) returns (r: Result<Units, NbtError>)
      requires Valid()
      modifies this
      ensures Valid() && IsSuffix(input, old(input)) && (r.Ok? ==> |input| + 2 <= |old(input)|)
      ensures (|Mutf8(want)| <= 0xffff && old(input) == StringBytes(want) + rest
               && (accountUnits ==> old(quota) + 2 * |want| <= limits.quota) && old(allocation) + 2 * |want| <= limits.allocation)
              ==> r == Ok(want) && input == rest && quota == old(quota) + (if accountUnits then 2 * |want| else 0)
                  && allocation == old(allocation) + 2 * |want|
    {
      hide *;
      StringShape(want, rest);
      ghost var start := input;
      ghost var expected := |Mutf8(want)| <= 0xffff && input == StringBytes(want) + rest;
      var length := Number(2, |Mutf8(want)|, Mutf8(want) + rest);
      if length.Err? {
        return Err(length.error);
      }
      ghost var body := input;
      var bytes := Pull(length.value);
      SuffixChain(start, body, input);
      if bytes.Err? {
        return Err(bytes.error);
      }
      assert expected ==> bytes.value == Mutf8(want) && input == rest;
      var units := ReadUnits(bytes.value, want);
      if units.Err? {
        return Err(units.error);
      }
      if accountUnits {
        var paid := Account(2 * |units.value|);
        if paid.Err? {
          return Err(paid.error);
        }
      }
      var reserved := Allocate(2 * |units.value|);
      if reserved.Err? {
        return Err(reserved.error);
      }
      r := units;
    }

    /** An array header: quota, count, and a refusal to reserve more than the input can hold. */
    method ArrayLength(width: nat, ghost want: nat, ghost rest: Bytes) returns (r: Result<nat, NbtError>)
      requires Valid()
      modifies this
      ensures Valid() && IsSuffix(input, old(input)) && (r.Ok? ==> Times(r.value, width) <= |input| && |input| < |old(input)|)
      ensures (want <= I32_MAX && old(input) == Put(want, 4) + rest && Times(want, width) <= |rest|
               && old(quota) + 24 + Times(want, width) <= limits.quota && old(allocation) + Times(want, width) <= limits.allocation)
              ==> r == Ok(want) && input == rest && quota == old(quota) + 24 + Times(want, width) && allocation == old(allocation) + Times(want, width)
    {
      hide Put, IsSuffix, Times;
      ghost var start := input;
      SuffixSelf(input);
      var paid := Account(24);
      if paid.Err? {
        return Err(paid.error);
      }
      var count := Count(want, rest);
      if count.Err? {
        return count;
      }
      var bytes: nat := Times(count.value, width);
      paid := Account(bytes);
      if paid.Err? {
        return Err(paid.error);
      }
      if bytes > |input| {
        return Err(Truncated);
      }
      paid := Allocate(bytes);
      if paid.Err? {
        return Err(paid.error);
      }
      r := count;
    }
  
    method Byte(ghost want: u8, ghost rest: Bytes) returns (r: Result<u8, NbtError>)
      modifies `input
      ensures IsSuffix(input, old(input)) && (r.Ok? ==> |input| + 1 == |old(input)|)
      ensures old(input) == [want] + rest ==> r == Ok(want) && input == rest
    {
      if input == [] {
        return Err(Truncated);
      }
      r := Ok(input[0]);
      input := input[1..];
    }

    method ReadI8s(count: nat, ghost want: seq<i8>, ghost rest: Bytes) returns (r: Result<seq<i8>, NbtError>)
      modifies `input
      ensures IsSuffix(input, old(input))
      ensures |want| == count && old(input) == I8sBytes(want) + rest ==> r == Ok(want) && input == rest
    {
      hide Put, I8sBytes;
      ghost var expected := |want| == count && input == I8sBytes(want) + rest;
      ArrayLengths(want, [], []);
      var bytes := Pull(count);
      if bytes.Err? {
        return Err(bytes.error);
      }
      assert expected ==> bytes.value == I8sBytes(want) && input == rest;
      var values := ToSigned(bytes.value, want);
      r := Ok(values);
    }

    method ReadI32s(count: nat, ghost want: seq<i32>, ghost rest: Bytes) returns (r: Result<seq<i32>, NbtError>)
      modifies `input
      ensures IsSuffix(input, old(input))
      ensures |want| == count && old(input) == I32sBytes(want) + rest ==> r == Ok(want) && input == rest
    {
      hide *;
      ghost var start := input;
      ghost var expected := |want| == count && input == I32sBytes(want) + rest;
      var values: seq<i32> := [];
      SuffixSelf(input);
      I32sSplit(want, 0);
      for i := 0 to count
        invariant IsSuffix(input, start) && |values| == i
        invariant expected ==> values == want[..i] && input == I32sBytes(want[i..]) + rest
      {
        ghost var before := input;
        ghost var next: i32, follow := 0, rest;
        if expected {
          I32sSplit(want, i);
          next, follow := want[i], I32sBytes(want[i + 1..]) + rest;
          I32Range(next);
          assert input == Put(Unsigned(next, 4), 4) + follow;
        }
        I32Range(next);
        var n := SignedNumber(4, next, follow);
        SuffixChain(start, before, input);
        if n.Err? {
          return Err(n.error);
        }
        values := values + [n.value];
      }
      I32sSplit(want, |want|);
      r := Ok(values);
    }

    method ReadI64s(count: nat, ghost want: seq<i64>, ghost rest: Bytes) returns (r: Result<seq<i64>, NbtError>)
      modifies `input
      ensures IsSuffix(input, old(input))
      ensures |want| == count && old(input) == I64sBytes(want) + rest ==> r == Ok(want) && input == rest
    {
      hide *;
      ghost var start := input;
      ghost var expected := |want| == count && input == I64sBytes(want) + rest;
      var values: seq<i64> := [];
      SuffixSelf(input);
      I64sSplit(want, 0);
      for i := 0 to count
        invariant IsSuffix(input, start) && |values| == i
        invariant expected ==> values == want[..i] && input == I64sBytes(want[i..]) + rest
      {
        ghost var before := input;
        ghost var next: i64, follow := 0, rest;
        if expected {
          I64sSplit(want, i);
          next, follow := want[i], I64sBytes(want[i + 1..]) + rest;
          I64Range(next);
          assert input == Put(Unsigned(next, 8), 8) + follow;
        }
        I64Range(next);
        var n := SignedNumber(8, next, follow);
        SuffixChain(start, before, input);
        if n.Err? {
          return Err(n.error);
        }
        values := values + [n.value];
      }
      I64sSplit(want, |want|);
      r := Ok(values);
    }

    /** A number, charged before it is read. */
    method Scalar(id: u8, ghost want: Tag, ghost rest: Bytes) returns (r: Result<Tag, NbtError>)
      requires Valid() && 1 <= id <= 6
      modifies this
      ensures Valid() && IsSuffix(input, old(input)) && (r.Ok? ==> r.value.Id() == id && Canonical(r.value))
      ensures (want.Id() == id && old(input) == PayloadBytes(want) + rest
               && old(quota) + Quota(want) <= limits.quota)
              ==> r == Ok(Norm(want)) && input == rest && quota == old(quota) + Quota(want) && allocation == old(allocation)
    {
      hide *;
      SuffixSelf(input);
      ScalarShape(id, want);
      var width: nat := if id == 1 then 1 else if id == 2 then 2 else if id == 3 || id == 5 then 4 else 8;
      var charge: nat := if id == 1 then 9 else if id == 2 then 10 else if id == 3 || id == 5 then 12 else 16;
      var paid := Account(charge);
      if paid.Err? {
        return Err(paid.error);
      }
      if id == 5 || id == 6 {
        var n := Number(width, BitsOf(want), rest);
        if n.Err? {
          return Err(n.error);
        }
        r := Ok(FloatOf(id, n.value));
      } else {
        var n := SignedNumber(width, IntegerOf(want), rest);
        if n.Err? {
          return Err(n.error);
        }
        r := Ok(IntegerTag(id, n.value));
      }
    }

    /** Array header, then its elements. */
    method Array(id: u8, ghost want: Tag, ghost rest: Bytes) returns (r: Result<Tag, NbtError>)
      requires Valid() && (id == 7 || id == 11 || id == 12)
      modifies this
      ensures Valid() && IsSuffix(input, old(input)) && (r.Ok? ==> r.value.Id() == id && Canonical(r.value))
      ensures (want.Id() == id && ArrayCount(want) <= I32_MAX && old(input) == PayloadBytes(want) + rest
               && old(quota) + Quota(want) <= limits.quota && old(allocation) + Alloc(want, sizes) <= limits.allocation)
              ==> r == Ok(want) && input == rest && quota == old(quota) + Quota(want) && allocation == old(allocation) + Alloc(want, sizes)
    {
      hide *;
      ghost var start := input;
      ghost var body := ArrayBody(want) + rest;
      ArrayFacts(want, rest);
      ArrayShape(id, want, sizes);
      var count := ArrayLength(if id == 7 then 1 else if id == 11 then 4 else 8, ArrayCount(want), body);
      if count.Err? {
        return Err(count.error);
      }
      ghost var middle := input;
      if id == 7 {
        var values := ReadI8s(count.value, if want.ByteArray? then want.bytes else [], rest);
        SuffixChain(start, middle, input);
        if values.Err? {
          return Err(values.error);
        }
        ArrayIds(values.value, [], []);
        return Ok(ByteArray(values.value));
      } else if id == 11 {
        var values := ReadI32s(count.value, if want.IntArray? then want.ints else [], rest);
        SuffixChain(start, middle, input);
        if values.Err? {
          return Err(values.error);
        }
        ArrayIds([], values.value, []);
        return Ok(IntArray(values.value));
      } else {
        var values := ReadI64s(count.value, if want.LongArray? then want.longs else [], rest);
        SuffixChain(start, middle, input);
        if values.Err? {
          return Err(values.error);
        }
        ArrayIds([], [], values.value);
        return Ok(LongArray(values.value));
      }
    }
  
    /** One payload of a given type. Whatever the writer wrote comes back, and nothing after it is touched. */
    method Payload(id: u8, depth: nat, ghost want: Tag, ghost rest: Bytes, ghost used: nat, ghost written: Limits)
        returns (r: Result<Tag, NbtError>)
      requires Valid()
      modifies this
      ensures Valid() && IsSuffix(input, old(input)) && (r.Ok? ==> r.value.Id() == id && Canonical(r.value))
      ensures Expects(old(input), old(quota), old(allocation), limits, sizes, want, id, depth, rest, used, written)
              ==> r == Ok(Norm(want)) && input == rest && quota == old(quota) + Quota(want) && allocation == old(allocation) + Alloc(want, sizes)
      decreases |input|, 3
    {
      hide Put, PayloadBytes, IsSuffix, ElementType;
      SuffixSelf(input);
      ghost var expected := Expects(input, quota, allocation, limits, sizes, want, id, depth, rest, used, written);
      if expected {
        ScalarFacts(want, depth, used, written, sizes);
      }
      if id == 0 {
        return Err(UnexpectedEnd);
      } else if id <= 6 {
        r := Scalar(id, want, rest);
      } else if id == 8 {
        var paid := Account(36);
        if paid.Err? {
          return Err(paid.error);
        }
        var units := String(true, if want.StringTag? then want.units else [], rest);
        r := if units.Err? then Err(units.error) else Ok(StringTag(units.value));
      } else if id == 9 {
        r := List(depth, want, rest, used, written);
      } else if id == 10 {
        r := Compound(depth, want, rest, used, written);
      } else if id == 7 || id == 11 || id == 12 {
        r := Array(id, want, rest);
      } else {
        r := Err(UnknownTag(id));
      }
    }

    method List(depth: nat, ghost want: Tag, ghost rest: Bytes, ghost used: nat, ghost written: Limits) returns (r: Result<Tag, NbtError>)
      requires Valid()
      modifies this
      ensures Valid() && IsSuffix(input, old(input)) && (r.Ok? ==> r.value.ListTag? && Canonical(r.value))
      ensures Expects(old(input), old(quota), old(allocation), limits, sizes, want, 9, depth, rest, used, written)
              ==> r == Ok(Norm(want)) && input == rest && quota == old(quota) + Quota(want) && allocation == old(allocation) + Alloc(want, sizes)
      decreases |input|, 0
    {
      hide *;
      SuffixSelf(input);
      ghost var start := input;
      ghost var expected := Expects(input, quota, allocation, limits, sizes, want, 9, depth, rest, used, written);
      ghost var values: seq<Tag>, raw: u8, inner: nat := [], 0, 0;
      if expected {
        ListHead(input, quota, allocation, limits, sizes, want, depth, rest, used, written);
        values, raw := want.values, ElementType(want.values).value;
        inner := SizeListHead(values, depth, used, written).value;
      }
      if depth >= limits.maxDepth {
        return Err(DepthLimit);
      }
      var head := ReadListHead(raw, |values|, ValuesBytes(values, raw) + rest);
      if head.Err? {
        return Err(head.error);
      }
      var id, count := head.value.0, head.value.1;
      ghost var body := input;
      r := Elements(id, count, depth + 1, values, rest, inner, written);
      SuffixChain(start, body, input);
    }

    /** The list header, charged and checked in order; nothing is reserved that the input cannot hold. */
    method ReadListHead(ghost raw: u8, ghost count: nat, ghost rest: Bytes) returns (r: Result<(u8, nat), NbtError>)
      requires Valid()
      modifies this
      ensures Valid() && IsSuffix(input, old(input)) && (r.Ok? ==> |input| < |old(input)| && Times(r.value.1, MinimumWidth(r.value.0)) <= |input|)
      ensures HeadExpects(old(input), old(quota), old(allocation), limits, sizes, raw, count, rest)
              ==> r == Ok((raw, count)) && input == rest && quota == old(quota) + 36 + 4 * count
                  && allocation == old(allocation) + Times(count, sizes.tag)
    {
      hide Put, IsSuffix, MinimumWidth, Times;
      ghost var start := input;
      SuffixSelf(input);
      var paid := Account(36);
      if paid.Err? {
        return Err(paid.error);
      }
      var id := Byte(raw, Put(count, 4) + rest);
      if id.Err? {
        return Err(id.error);
      }
      ghost var middle := input;
      var n := Count(count, rest);
      SuffixChain(start, middle, input);
      if n.Err? {
        return Err(n.error);
      }
      if n.value != 0 {
        if id.value == 0 {
          return Err(UnexpectedEnd);
        }
        if id.value > 12 {
          return Err(UnknownTag(id.value));
        }
      }
      paid := Account(4 * n.value);
      if paid.Err? {
        return Err(paid.error);
      }
      if Times(n.value, MinimumWidth(id.value)) > |input| {
        return Err(Truncated);
      }
      paid := Allocate(Times(n.value, sizes.tag));
      if paid.Err? {
        return Err(paid.error);
      }
      r := Ok((id.value, n.value));
    }

    /** The elements; a wrapper read back is replaced by what it wraps. */
    method Elements(id: u8, count: nat, depth: nat, ghost want: seq<Tag>, ghost rest: Bytes, ghost used: nat, ghost written: Limits)
        returns (r: Result<Tag, NbtError>)
      requires Valid()
      modifies this
      ensures Valid() && IsSuffix(input, old(input)) && (r.Ok? ==> r.value.ListTag? && Canonical(r.value))
      ensures (|want| == count && ListExpects(old(input), old(quota), old(allocation), limits, sizes, want, id, depth, rest, used, written))
              ==> r == Ok(ListTag(NormAll(want))) && input == rest && quota == old(quota) + QuotaValues(want, id)
                  && allocation == old(allocation) + AllocValues(want, id, sizes)
      decreases |input|, 4
    {
      hide *;
      ghost var start := input;
      ghost var spent, reserved := quota, allocation;
      ghost var expected := |want| == count && ListExpects(input, quota, allocation, limits, sizes, want, id, depth, rest, used, written);
      ghost var u := used;
      var values: seq<Tag> := [];
      SuffixSelf(input);
      assert want[0..] == want;
      NormAllEmpty();
      assert want[..0] == [];
      for i := 0 to count
        invariant Valid() && IsSuffix(input, start) && |input| <= |start|
        invariant forall v :: v in values ==> Canonical(v)
        invariant expected ==> values == NormAll(want[..i]) && ListExpects(input, quota, allocation, limits, sizes, want[i..], id, depth, rest, u, written)
        invariant expected ==> quota + QuotaValues(want[i..], id) == spent + QuotaValues(want, id)
                               && allocation + AllocValues(want[i..], id, sizes) == reserved + AllocValues(want, id, sizes)
      {
        ghost var before := input;
        ghost var wire, tail := End, rest;
        if expected {
          ListStep(input, quota, allocation, limits, sizes, want[i..], id, depth, rest, u, written);
          wire, tail := Wire(want[i], id), ValuesBytes(want[i..][1..], id) + rest;
          assert want[i..][1..] == want[i + 1..];
        }
        var read := Payload(id, depth, wire, tail, u, written);
        SuffixChain(start, before, input);
        SuffixLonger(start, input);
        if read.Err? {
          return Err(read.error);
        }
        if expected {
          u := SizeTag(wire, depth, u, written).value;
          UnwrapElement(want, i, id, read.value);
        }
        var value := Unwrapped(read.value);
        UnwrappedCanonical(read.value);
        values := values + [value];
      }
      if expected {
        assert want[..count] == want && want[count..] == [];
        ListEnd(input, quota, allocation, limits, sizes, id, depth, rest, u, written);
      }
      ListCanonical(values);
      r := Ok(ListTag(values));
    }

    /** Entries until the end byte, then sorted; of repeated names the last value wins. */
    method Compound(depth: nat, ghost want: Tag, ghost rest: Bytes, ghost used: nat, ghost written: Limits) returns (r: Result<Tag, NbtError>)
      requires Valid()
      modifies this
      ensures Valid() && IsSuffix(input, old(input)) && (r.Ok? ==> r.value.CompoundTag? && Canonical(r.value))
      ensures Expects(old(input), old(quota), old(allocation), limits, sizes, want, 10, depth, rest, used, written)
              ==> r == Ok(Norm(want)) && input == rest && quota == old(quota) + Quota(want) && allocation == old(allocation) + Alloc(want, sizes)
      decreases |input|, 2
    {
      hide *;
      SuffixSelf(input);
      ghost var start := input;
      ghost var expected := Expects(input, quota, allocation, limits, sizes, want, 10, depth, rest, used, written);
      if expected {
        CompoundHead(input, quota, allocation, limits, sizes, want, depth, rest, used, written);
      }
      if depth >= limits.maxDepth {
        return Err(DepthLimit);
      }
      var paid := Account(48);
      if paid.Err? {
        return Err(paid.error);
      }
      ghost var entries: seq<Entry> := if expected then want.entries else [];
      var read := ReadEntries(depth + 1, entries, rest, used, written);
      if read.Err? {
        return Err(read.error);
      }
      var sorted := FromEntries(read.value);
      LookedUpCanonical(read.value, sorted);
      if expected {
        NormKeepsOrder(entries);
      }
      paid := Account(36 * |sorted|);
      if paid.Err? {
        return Err(paid.error);
      }
      r := Ok(CompoundTag(sorted));
    }

    method ReadEntries(depth: nat, ghost want: seq<Entry>, ghost rest: Bytes, ghost used: nat, ghost written: Limits)
        returns (r: Result<seq<Entry>, NbtError>)
      requires Valid()
      modifies this
      ensures Valid() && IsSuffix(input, old(input)) && (r.Ok? ==> forall e :: e in r.value ==> Canonical(e.value))
      ensures EntriesExpect(old(input), old(quota), old(allocation), limits, sizes, want, 0, depth, rest, used, written)
              ==> r == Ok(NormEntries(want)) && input == rest && quota == old(quota) + QuotaEntries(want)
                  && allocation == old(allocation) + AllocEntries(want, 0, sizes)
      decreases |input|, 1
    {
      hide *;
      ghost var start := input;
      ghost var spent, reserved := quota, allocation;
      ghost var expected := EntriesExpect(input, quota, allocation, limits, sizes, want, 0, depth, rest, used, written);
      ghost var u := used;
      var entries: seq<Entry>, capacity: nat := [], 0;
      SuffixSelf(input);
      NormEntriesEmpty();
      assert want[0..] == want && want[..0] == [];
      while true
        invariant Valid() && IsSuffix(input, start) && |input| <= |start| && capacity == Capacity(|entries|)
        invariant forall e :: e in entries ==> Canonical(e.value)
        invariant expected ==> |entries| <= |want| && entries == NormEntries(want[..|entries|])
        invariant expected ==> EntriesExpect(input, quota, allocation, limits, sizes, want[|entries|..], |entries|, depth, rest, u, written)
        invariant expected ==> quota + QuotaEntries(want[|entries|..]) == spent + QuotaEntries(want)
                               && allocation + AllocEntries(want[|entries|..], |entries|, sizes) == reserved + AllocEntries(want, 0, sizes)
        decreases |input|
      {
        ghost var n := |entries|;
        ghost var before := input;
        ghost var next, tail, inner := Entry([], End), rest, u;
        if expected {
          EntriesNext(input, quota, allocation, limits, sizes, want, n, depth, rest, u, written);
          if n < |want| {
            next, tail := want[n], EntriesBytes(want[n + 1..]) + rest;
            inner := SizeEntryHead(next, u, written).value;
          }
        }
        ghost var follow := if next.value.End? then rest else StringBytes(next.name) + (PayloadBytes(next.value) + tail);
        var id := Byte(next.value.Id(), follow);
        SuffixChain(start, before, input);
        SuffixLonger(start, input);
        if id.Err? {
          return Err(id.error);
        }
        if id.value == 0 {
          return Ok(entries);
        }
        if id.value > 12 {
          return Err(UnknownTag(id.value));
        }
        ghost var middle := input;
        var entry := ReadEntry(id.value, depth, next, tail, inner, written);
        SuffixChain(start, middle, input);
        SuffixLonger(middle, input);
        if entry.Err? {
          return Err(entry.error);
        }
        CapacityStep(n, sizes);
        if |entries| == capacity {
          var grown := Grown(|entries|);
          if expected {
            EntriesAffordable(tail, quota, allocation + Times(grown, sizes.entry), limits, sizes, want[n + 1..], n + 1, depth, rest,
                              SizeTag(next.value, depth, inner, written).value, written);
          }
          var reserved := Allocate(Times(grown, sizes.entry));
          if reserved.Err? {
            return Err(reserved.error);
          }
          capacity := grown;
        }
        if expected {
          u := SizeTag(next.value, depth, inner, written).value;
          assert want[..n + 1] == want[..n] + [next];
          NormEntriesAppend(want[..n], next);
        }
        entries := entries + [entry.value];
      }
    }

    /** One entry after its type byte. */
    method ReadEntry(id: u8, depth: nat, ghost want: Entry, ghost rest: Bytes, ghost used: nat, ghost written: Limits)
        returns (r: Result<Entry, NbtError>)
      requires Valid() && 1 <= id <= 12
      modifies this
      ensures Valid() && IsSuffix(input, old(input)) && (r.Ok? ==> Canonical(r.value.value))
      ensures (|Mutf8(want.name)| <= 0xffff && old(input) == StringBytes(want.name) + (PayloadBytes(want.value) + rest)
               && Expects(PayloadBytes(want.value) + rest, old(quota) + 28 + 2 * |want.name|, old(allocation) + 2 * |want.name|, limits, sizes,
                          want.value, id, depth, rest, used, written))
              ==> r == Ok(Entry(want.name, Norm(want.value))) && input == rest
                  && quota == old(quota) + 28 + 2 * |want.name| + Quota(want.value)
                  && allocation == old(allocation) + 2 * |want.name| + Alloc(want.value, sizes)
      decreases |input|, 4
    {
      hide *;
      SuffixSelf(input);
      ghost var start := input;
      ghost var body := PayloadBytes(want.value) + rest;
      if Expects(body, quota + 28 + 2 * |want.name|, allocation + 2 * |want.name|, limits, sizes, want.value, id, depth, rest, used, written) {
        Affordable(body, quota + 28 + 2 * |want.name|, allocation + 2 * |want.name|, limits, sizes, want.value, id, depth, rest, used, written);
      }
      var paid := Account(28);
      if paid.Err? {
        return Err(paid.error);
      }
      var name := String(true, want.name, body);
      if name.Err? {
        return Err(name.error);
      }
      ghost var middle := input;
      SuffixLonger(start, input);
      var value := Payload(id, depth, want.value, rest, used, written);
      SuffixChain(start, middle, input);
      r := if value.Err? then Err(value.error) else Ok(Entry(name.value, value.value));
    }
  }

  function Unwrapped(tag: Tag): Tag {
    if tag.IsWrapper() then tag.entries[0].value else tag
  }

  lemma UnwrappedCanonical(tag: Tag)
    requires Canonical(tag)
    ensures Canonical(Unwrapped(tag))
  {
    if tag.IsWrapper() {
      assert tag.entries[0] in tag.entries;
    }
  }

  /** Reading one wire element of a list extends the normal prefix by one. */
  lemma UnwrapElement(want: seq<Tag>, i: nat, raw: u8, read: Tag)
    requires i < |want| && !want[i].End? && read == Norm(Wire(want[i], raw)) && read.Id() == raw
    ensures NormAll(want[..i + 1]) == NormAll(want[..i]) + [Unwrapped(read)]
  {
    UnwrapNorm(want[i], raw);
    NormAllAppend(want[..i], want[i]);
    assert want[..i + 1] == want[..i] + [want[i]];
  }

  lemma NormAllEmpty()
    ensures NormAll([]) == []
  {
  }

  lemma NormEntriesEmpty()
    ensures NormEntries([]) == [] && Capacity(0) == 0
  {
  }

  lemma NormKeepsOrder(entries: seq<Entry>)
    requires Ascending(entries)
    ensures Ascending(NormEntries(entries)) && |NormEntries(entries)| == |entries|
  {
  }

  lemma CapacityStep(n: nat, sizes: Sizes)
    ensures Capacity(n + 1) == if n == Capacity(n) then Grown(n) else Capacity(n)
    ensures GrowthBytes(n, sizes) == if n == Capacity(n) then Times(Grown(n), sizes.entry) else 0
  {
  }

  lemma Affordable(input: Bytes, quota: nat, allocation: nat, limits: Limits, sizes: Sizes,
                   want: Tag, id: u8, depth: nat, rest: Bytes, used: nat, written: Limits)
    requires Expects(input, quota, allocation, limits, sizes, want, id, depth, rest, used, written)
    ensures quota <= limits.quota && allocation <= limits.allocation
  {
  }

  lemma EntriesAffordable(input: Bytes, quota: nat, allocation: nat, limits: Limits, sizes: Sizes,
                          entries: seq<Entry>, n: nat, depth: nat, rest: Bytes, used: nat, written: Limits)
    requires EntriesExpect(input, quota, allocation, limits, sizes, entries, n, depth, rest, used, written)
    ensures quota <= limits.quota && allocation <= limits.allocation
  {
  }

  /** What follows the first `n` entries of a written compound. */
  lemma EntriesNext(input: Bytes, quota: nat, allocation: nat, limits: Limits, sizes: Sizes,
                    want: seq<Entry>, n: nat, depth: nat, rest: Bytes, used: nat, written: Limits)
    requires n <= |want| && EntriesExpect(input, quota, allocation, limits, sizes, want[n..], n, depth, rest, used, written)
    ensures End.Id() == 0 && (n == |want| ==> input == [0] + rest && want[..n] == want && QuotaEntries(want[n..]) == 0 && AllocEntries(want[n..], n, sizes) == 0)
    ensures n < |want| ==>
      var e := want[n];
      var tail := EntriesBytes(want[n + 1..]) + rest;
      && !e.value.End? && |Mutf8(e.name)| <= 0xffff && SizeEntryHead(e, used, written).Ok? && 1 <= e.value.Id() <= 12
      && input == [e.value.Id()] + (StringBytes(e.name) + (PayloadBytes(e.value) + tail))
      && Expects(PayloadBytes(e.value) + tail, quota + 28 + 2 * |e.name|, allocation + 2 * |e.name|, limits, sizes,
                 e.value, e.value.Id(), depth, tail, SizeEntryHead(e, used, written).value, written)
      && SizeTag(e.value, depth, SizeEntryHead(e, used, written).value, written).Ok?
      && EntriesExpect(tail, quota + 28 + 2 * |e.name| + Quota(e.value), allocation + 2 * |e.name| + Alloc(e.value, sizes) + GrowthBytes(n, sizes),
                       limits, sizes, want[n + 1..], n + 1, depth, rest, SizeTag(e.value, depth, SizeEntryHead(e, used, written).value, written).value, written)
      && QuotaEntries(want[n..]) == 28 + 2 * |e.name| + Quota(e.value) + QuotaEntries(want[n + 1..])
      && AllocEntries(want[n..], n, sizes) == 2 * |e.name| + Alloc(e.value, sizes) + GrowthBytes(n, sizes) + AllocEntries(want[n + 1..], n + 1, sizes)
  {
    hide EntriesExpect, Expects, Quota, Alloc, QuotaEntries, AllocEntries, EntriesBytes, PayloadBytes, StringBytes, SizeTag, SizeEntryHead, GrowthBytes, Mutf8;
    if n < |want| {
      EntryStep(input, quota, allocation, limits, sizes, want[n..], n, depth, rest, used, written);
      assert want[n..][1..] == want[n + 1..];
    } else {
      assert want[n..] == [];
      EntriesEnd(input, quota, allocation, limits, sizes, n, depth, rest, used, written);
    }
  }

  lemma SuffixLonger(a: Bytes, b: Bytes)
    requires IsSuffix(b, a)
    ensures |b| <= |a|
  {
  }

  function AsSigned8(b: u8): i8 {
    if b < 0x80 then b else b - 0x100
  }

  /** Reinterprets each byte as a signed one. */
  method ToSigned(bytes: Bytes, ghost want: seq<i8>) returns (values: seq<i8>)
    ensures bytes == I8sBytes(want) ==> values == want
  {
    ArrayLengths(want, [], []);
    values := [];
    for i := 0 to |bytes|
      invariant |values| == i && (bytes == I8sBytes(want) ==> values == want[..i])
    {
      if bytes == I8sBytes(want) {
        ByteAt(want, i);
      }
      values := values + [AsSigned8(bytes[i])];
    }
  }

  lemma {:induction false} ByteAt(want: seq<i8>, i: nat)
    requires i < |want|
    ensures i < |I8sBytes(want)| && AsSigned8(I8sBytes(want)[i]) == want[i]
  {
    var first := PutI8(want[0]);
    assert first == Put(Unsigned(want[0], 1) / 256, 0) + [Unsigned(want[0], 1) % 256];
    if i > 0 {
      ByteAt(want[1..], i - 1);
    }
  }

  lemma I32Range(v: i32)
    ensures Span(4) % 2 == 0 && Span(4) / 2 == 0x8000_0000 && Unsigned(v, 4) >= 0
  {
    Widths();
  }

  lemma I32sSplit(want: seq<i32>, i: nat)
    requires i <= |want|
    ensures want[0..] == want && want[..|want|] == want
    ensures i == |want| ==> I32sBytes(want[i..]) == []
    ensures i < |want| ==> I32sBytes(want[i..]) == Put(Unsigned(want[i], 4), 4) + I32sBytes(want[i + 1..])
  {
    hide Put;
    if i < |want| {
      assert want[i..][1..] == want[i + 1..];
      PutSigned32(want[i]);
    }
  }

  lemma PutSigned32(v: i32)
    ensures PutI32(v) == Put(Unsigned(v, 4), 4) && Unsigned(v, 4) >= 0
  {
    Widths();
  }

  lemma I64Range(v: i64)
    ensures Span(8) % 2 == 0 && Span(8) / 2 == 0x8000_0000_0000_0000 && Unsigned(v, 8) >= 0
  {
    Widths();
  }

  lemma I64sSplit(want: seq<i64>, i: nat)
    requires i <= |want|
    ensures want[0..] == want && want[..|want|] == want
    ensures i == |want| ==> I64sBytes(want[i..]) == []
    ensures i < |want| ==> I64sBytes(want[i..]) == Put(Unsigned(want[i], 8), 8) + I64sBytes(want[i + 1..])
  {
    hide Put;
    if i < |want| {
      assert want[i..][1..] == want[i + 1..];
      PutSigned64(want[i]);
    }
  }

  lemma PutSigned64(v: i64)
    ensures PutI64(v) == Put(Unsigned(v, 8), 8) && Unsigned(v, 8) >= 0
  {
    Widths();
  }

  lemma SuffixSelf(a: Bytes)
    ensures IsSuffix(a, a)
  {
  }

  lemma ArrayIds(bytes: seq<i8>, ints: seq<i32>, longs: seq<i64>)
    ensures ByteArray(bytes).Id() == 7 && IntArray(ints).Id() == 11 && LongArray(longs).Id() == 12
    ensures Canonical(ByteArray(bytes)) && Canonical(IntArray(ints)) && Canonical(LongArray(longs))
  {
  }

  lemma ArrayShape(id: u8, tag: Tag, sizes: Sizes)
    requires id == 7 || id == 11 || id == 12
    ensures var width := if id == 7 then 1 else if id == 11 then 4 else 8;
      (tag.Id() == id ==>
        && (id == 7 ==> tag.ByteArray? && ArrayCount(tag) == |tag.bytes| && ArrayBody(tag) == I8sBytes(tag.bytes))
        && (id == 11 ==> tag.IntArray? && ArrayCount(tag) == |tag.ints| && ArrayBody(tag) == I32sBytes(tag.ints))
        && (id == 12 ==> tag.LongArray? && ArrayCount(tag) == |tag.longs| && ArrayBody(tag) == I64sBytes(tag.longs))
        && Quota(tag) == 24 + Times(ArrayCount(tag), width) && Alloc(tag, sizes) == Times(ArrayCount(tag), width))
  {
  }

  ghost function ArrayCount(tag: Tag): nat {
    match tag
    case ByteArray(v) => |v|
    case IntArray(v) => |v|
    case LongArray(v) => |v|
    case _ => 0
  }

  ghost function ArrayBody(tag: Tag): Bytes {
    match tag
    case ByteArray(v) => I8sBytes(v)
    case IntArray(v) => I32sBytes(v)
    case LongArray(v) => I64sBytes(v)
    case _ => []
  }

  lemma ArrayFacts(tag: Tag, rest: Bytes)
    ensures tag.ByteArray? || tag.IntArray? || tag.LongArray? ==>
      && PayloadBytes(tag) + rest == Put(ArrayCount(tag), 4) + (ArrayBody(tag) + rest)
      && |ArrayBody(tag)| == Times(ArrayCount(tag), if tag.ByteArray? then 1 else if tag.IntArray? then 4 else 8)
  {
    hide Put, I8sBytes, I32sBytes, I64sBytes;
    match tag
    case ByteArray(v) => ArrayLengths(v, [], []);
    case IntArray(v) => ArrayLengths([], v, []);
    case LongArray(v) => ArrayLengths([], [], v);
    case _ =>
  }

  // ----- roots -----

  /** Reads one network root and reports what it reserved; a failure leaves the input alone. */
  method ReadNetwork(input: Bytes, limits: Limits, sizes: Sizes, ghost want: Tag, ghost rest: Bytes, ghost written: Limits)
      returns (r: Result<(Tag, nat), NbtError>, after: Bytes)
    ensures r.Err? ==> after == input
    ensures r.Ok? ==> IsSuffix(after, input) && Canonical(r.value.0) && r.value.1 <= limits.allocation
    ensures limits.maxDepth > 512 ==> r == Err(InvalidDepthLimit)
    ensures (written.maxDepth <= limits.maxDepth <= 512 && Canonical(want) && SizeNetwork(want, written).Ok? && input == NetworkBytes(want) + rest
             && Quota(want) <= limits.quota && Alloc(want, sizes) <= limits.allocation)
            ==> r == Ok((Norm(want), Alloc(want, sizes))) && after == rest
  {
    hide *;
    after := input;
    if limits.maxDepth > 512 {
      return Err(InvalidDepthLimit), after;
    }
    ghost var used: nat := 1;
    NetworkShape(want, rest, written);
    var reader := new Reader(input, limits, sizes);
    var id := reader.Byte(want.Id(), PayloadBytes(want) + rest);
    if id.Err? {
      return Err(id.error), after;
    }
    if id.value == 0 {
      EndIsCanonical();
      reader.Within();
      return Ok((End, reader.allocation)), reader.input;
    }
    ghost var body := reader.input;
    if Canonical(want) && SizeNetwork(want, written).Ok? && !want.End? && body == PayloadBytes(want) + rest
       && written.maxDepth <= limits.maxDepth && Quota(want) <= limits.quota && Alloc(want, sizes) <= limits.allocation {
      RootExpected(body, limits, sizes, want, rest, written);
    }
    var tag := reader.Payload(id.value, 0, want, rest, 1, written);
    SuffixChain(input, body, reader.input);
    if tag.Err? {
      return Err(tag.error), after;
    }
    reader.Within();
    r, after := Ok((tag.value, reader.allocation)), reader.input;
  }

  lemma NetworkShape(want: Tag, rest: Bytes, written: Limits)
    ensures NetworkBytes(want) + rest == [want.Id()] + (PayloadBytes(want) + rest)
    ensures want.Id() == 0 <==> want.End?
  {
  }

  lemma EndIsCanonical()
    ensures Canonical(End) && Norm(End) == End && PayloadBytes(End) == [] && (forall sizes :: Alloc(End, sizes) == 0)
  {
  }

  lemma RootExpected(body: Bytes, limits: Limits, sizes: Sizes, want: Tag, rest: Bytes, written: Limits)
    requires Canonical(want) && SizeNetwork(want, written).Ok? && !want.End? && body == PayloadBytes(want) + rest
    requires written.maxDepth <= limits.maxDepth && Quota(want) <= limits.quota && Alloc(want, sizes) <= limits.allocation
    ensures Expects(body, 0, 0, limits, sizes, want, want.Id(), 0, rest, 1, written)
  {
    hide PayloadBytes, SizeTag, Quota, Alloc, Canonical;
  }

  /** Reads a named root. Its name is kept but not charged; End carries none. */
  method ReadNamed(input: Bytes, limits: Limits, sizes: Sizes, ghost name: Units, ghost want: Tag, ghost rest: Bytes, ghost written: Limits)
      returns (r: Result<(Units, Tag), NbtError>, after: Bytes)
    ensures r.Err? ==> after == input
    ensures r.Ok? ==> IsSuffix(after, input) && Canonical(r.value.1)
    ensures limits.maxDepth > 512 ==> r == Err(InvalidDepthLimit)
    ensures (written.maxDepth <= limits.maxDepth <= 512 && Canonical(want) && SizeNamed(name, want, written).Ok? && input == NamedBytes(name, want) + rest
             && Quota(want) <= limits.quota && 2 * |name| + Alloc(want, sizes) <= limits.allocation)
            ==> r == Ok((name, Norm(want))) && after == rest
  {
    hide *;
    after := input;
    if limits.maxDepth > 512 {
      return Err(InvalidDepthLimit), after;
    }
    IdBound(want);
    EndIsCanonical();
    var reader := new Reader(input, limits, sizes);
    ghost var body := PayloadBytes(want) + rest;
    ghost var used := 1 + |Mutf8(name)| + 2;
    ghost var expected := (
      && written.maxDepth <= limits.maxDepth && Canonical(want) && SizeNamed(name, want, written).Ok? && input == NamedBytes(name, want) + rest
      && Quota(want) <= limits.quota && 2 * |name| + Alloc(want, sizes) <= limits.allocation);
    ghost var ended := expected && want.End?;
    if expected {
      NamedShape(body, limits, sizes, name, want, rest, written);
      if !ended {
        Affordable(body, 0, 2 * |name|, limits, sizes, want, want.Id(), 0, rest, used, written);
        ExpectsParts(body, 0, 2 * |name|, limits, sizes, want, want.Id(), 0, rest, used, written);
      }
    }
    var id := reader.Byte(if ended then 0 else want.Id(), if ended then rest else StringBytes(name) + body);
    if id.Err? {
      return Err(id.error), after;
    }
    if id.value == 0 {
      EndIsCanonical();
      return Ok(([], End)), reader.input;
    }
    if id.value > 12 {
      return Err(UnknownTag(id.value)), after;
    }
    ghost var middle := reader.input;
    var read := reader.String(false, name, body);
    SuffixChain(input, middle, reader.input);
    if read.Err? {
      return Err(read.error), after;
    }
    ghost var late := reader.input;
    var tag := reader.Payload(id.value, 0, want, rest, used, written);
    SuffixChain(input, late, reader.input);
    if tag.Err? {
      return Err(tag.error), after;
    }
    r, after := Ok((read.value, tag.value)), reader.input;
  }

  lemma IdBound(tag: Tag)
    ensures tag.Id() <= 12
  {
  }

  /** A written named root is its type and, unless it is End, its name and a payload to be read. */
  lemma NamedShape(body: Bytes, limits: Limits, sizes: Sizes, name: Units, want: Tag, rest: Bytes, written: Limits)
    requires Canonical(want) && SizeNamed(name, want, written).Ok? && body == PayloadBytes(want) + rest
    requires written.maxDepth <= limits.maxDepth && Quota(want) <= limits.quota && 2 * |name| + Alloc(want, sizes) <= limits.allocation
    ensures want.End? <==> want.Id() == 0
    ensures want.End? ==> name == [] && NamedBytes(name, want) + rest == [0] + rest
    ensures !want.End? ==>
      && |Mutf8(name)| <= 0xffff && NamedBytes(name, want) + rest == [want.Id()] + (StringBytes(name) + body)
      && Expects(body, 0, 2 * |name|, limits, sizes, want, want.Id(), 0, rest, 1 + |Mutf8(name)| + 2, written)
  {
    hide PayloadBytes, StringBytes, SizeTag, Quota, Alloc;
    if !want.End? {
      assert NamedBytes(name, want) == [want.Id()] + StringBytes(name) + PayloadBytes(want);
      assert NamedBytes(name, want) + rest == [want.Id()] + (StringBytes(name) + body);
    } else {
      assert NamedBytes(name, want) + rest == [0] + rest by { EndIsCanonical(); }
    }
  }

  // ----- what survives unchanged -----

  /** No NaN but the canonical one, and no negative zero. */
  predicate Plain(tag: Tag)
    decreases tag
  {
    match tag
    case FloatTag(bits) => Canon32(bits) == bits && bits != 0x8000_0000
    case DoubleTag(bits) => Canon64(bits) == bits && bits != 0x8000_0000_0000_0000
    case ListTag(values) => forall v :: v in values ==> Plain(v)
    case CompoundTag(entries) => forall e :: e in entries ==> Plain(e.value)
    case _ => true
  }

  /** A tree comes back identical exactly when its floats are plain. */
  lemma {:induction false} NormKeepsPlain(tag: Tag)
    ensures Norm(tag) == tag <==> Plain(tag)
    decreases tag, 0
  {
    match tag
    case ListTag(values) => NormAllKeepsPlain(values);
    case CompoundTag(entries) => NormEntriesKeepPlain(entries);
    case _ =>
  }

  lemma {:induction false} NormAllKeepsPlain(values: seq<Tag>)
    ensures NormAll(values) == values <==> forall v :: v in values ==> Plain(v)
    decreases values, 0
  {
    if values != [] {
      NormKeepsPlain(values[0]);
      NormAllKeepsPlain(values[1..]);
      assert values == [values[0]] + values[1..];
      assert NormAll(values)[0] == Norm(values[0]) && NormAll(values)[1..] == NormAll(values[1..]);
    }
  }

  lemma {:induction false} NormEntriesKeepPlain(entries: seq<Entry>)
    ensures NormEntries(entries) == entries <==> forall e :: e in entries ==> Plain(e.value)
    decreases entries, 0
  {
    if entries != [] {
      NormKeepsPlain(entries[0].value);
      NormEntriesKeepPlain(entries[1..]);
      assert entries == [entries[0]] + entries[1..];
      assert entries[0] in entries && forall e :: e in entries[1..] ==> e in entries;
      assert NormEntries(entries)[0] == Entry(entries[0].name, Norm(entries[0].value)) && NormEntries(entries)[1..] == NormEntries(entries[1..]);
    }
  }
}
