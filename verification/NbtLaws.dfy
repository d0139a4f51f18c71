/** Binary NBT without its recursion: which trees can be written, what their bytes look like, and what reading keeps. */
module NbtLaws {
  import opened World
  import opened BigEndian
  import opened Nbt
  import opened NbtWrite
  import opened NbtRead

  // ----- which trees can be written -----

  /** Every string and array fits its length field, no End hides inside a container, and `room` levels suffice. */
  predicate Writable(tag: Tag, room: int)
    decreases tag
  {
    match tag
    case StringTag(units) => |Mutf8(units)| <= 0xffff
    case ByteArray(v) => |v| <= 0x7fff_ffff
    case IntArray(v) => |v| <= 0x7fff_ffff
    case LongArray(v) => |v| <= 0x7fff_ffff
    case ListTag(values) =>
      room > 0 && |values| <= 0x7fff_ffff && forall v :: v in values ==> ElementWritable(values, v, room)
    case CompoundTag(entries) =>
      room > 0 && forall e :: e in entries ==> !e.value.End? && |Mutf8(e.name)| <= 0xffff && Writable(e.value, room - 1)
    case _ => true
  }

  predicate ElementWritable(values: seq<Tag>, v: Tag, room: int)
    requires v in values
    decreases values
  {
    !v.End? && if IsMixed(values) && LooksWrapped(v) then room > 1 && Writable(v, room - 2) else Writable(v, room - 1)
  }

  /** Two types in one list: it travels as a list of compounds. So does a list of compounds. */
  predicate IsMixed(values: seq<Tag>) {
    (exists i, j :: 0 <= i < |values| && 0 <= j < |values| && values[i].Id() != values[j].Id())
    || exists i :: 0 <= i < |values| && values[i].CompoundTag?
  }

  /** Anything but a compound, and a compound that could be taken for a wrapper. */
  predicate LooksWrapped(v: Tag) {
    v.CompoundTag? ==> |v.entries| == 1 && v.entries[0].name == []
  }

  lemma MixedMeans(values: seq<Tag>)
    requires forall v :: v in values ==> !v.End?
    ensures ElementType(values).Ok? && (ElementType(values).value == 10 <==> IsMixed(values))
    ensures !IsMixed(values) ==> ElementType(values).value == if values == [] then 0 else values[0].Id()
  {
    forall i | 0 <= i < |values| ensures !values[i].End? && (values[i].Id() == 10 <==> values[i].CompoundTag?) {
      assert values[i] in values;
    }
  }

  lemma {:induction false} WritesExactly(tag: Tag, depth: nat, used: nat, limits: Limits)
    requires used <= limits.output
    ensures SizeTag(tag, depth, used, limits).Ok? <==> Writable(tag, limits.maxDepth - depth) && used + |PayloadBytes(tag)| <= limits.output
    decreases tag, 0
  {
    hide Put, Mutf8, ElementType;
    match tag
    case ByteArray(v) => ArrayLengths(v, [], []);
    case IntArray(v) => ArrayLengths([], v, []);
    case LongArray(v) => ArrayLengths([], [], v);
    case CompoundTag(entries) =>
      EntriesExactly(entries, depth + 1, used, limits);
    case ListTag(values) => ListExactly(values, depth, used, limits);
    case _ =>
  }

  lemma {:induction false} ListExactly(values: seq<Tag>, depth: nat, used: nat, limits: Limits)
    requires used <= limits.output
    ensures SizeTag(ListTag(values), depth, used, limits).Ok? <==>
            Writable(ListTag(values), limits.maxDepth - depth) && used + |PayloadBytes(ListTag(values))| <= limits.output
    decreases values, 1
  {
    hide Put, ElementType, PayloadBytes, SizeTag, SizeValues, ValuesBytes, Writable, IsMixed;
    var room := limits.maxDepth - depth;
    var text := PayloadBytes(ListTag(values));
    ListParts(values, depth, used, limits);
    var ended := exists v :: v in values && v.End?;
    if ended {
      var v :| v in values && v.End?;
      var i :| 0 <= i < |values| && values[i] == v;
      EndedList(values);
      assert !ElementWritable(values, v, room);
    } else {
      MixedMeans(values);
      var raw := ElementType(values).value;
      var head := SizeListHead(values, depth, used, limits);
      if head.Ok? {
        ValuesExactly(values, raw, depth + 1, head.value, limits);
        forall v | v in values ensures ElementWritable(values, v, room) <==> ValueWritable(v, raw, room - 1) {
        }
      }
    }
  }

  lemma EndedList(values: seq<Tag>)
    requires exists i :: 0 <= i < |values| && values[i].End?
    ensures ElementType(values) == Err(UnexpectedEnd)
  {
  }

  lemma ListParts(values: seq<Tag>, depth: nat, used: nat, limits: Limits)
    ensures var head := SizeListHead(values, depth, used, limits);
      && (head.Err? ==> SizeTag(ListTag(values), depth, used, limits).Err?)
      && (head.Ok? ==> SizeTag(ListTag(values), depth, used, limits) == SizeValues(values, ElementType(values).value, depth + 1, head.value, limits))
      && (head.Ok? <==> depth < limits.maxDepth && ElementType(values).Ok? && |values| <= I32_MAX && used + 5 <= limits.output)
      && (head.Ok? ==> head.value == used + 5)
    ensures ElementType(values).Ok? ==> |PayloadBytes(ListTag(values))| == 5 + |ValuesBytes(values, ElementType(values).value)|
    ensures forall room :: Writable(ListTag(values), room) <==> room > 0 && |values| <= I32_MAX && forall v :: v in values ==> ElementWritable(values, v, room)
  {
    hide Put, ElementType;
  }

  /** An element inside its list: a wrapper is one more level. */
  predicate ValueWritable(v: Tag, raw: u8, room: int) {
    if raw == 10 && LooksWrapped(v) then room > 0 && Writable(v, room - 1) else Writable(v, room)
  }

  lemma {:induction false} ValuesExactly(values: seq<Tag>, raw: u8, depth: nat, used: nat, limits: Limits)
    requires used <= limits.output
    ensures SizeValues(values, raw, depth, used, limits).Ok? <==>
            && (forall v :: v in values ==> ValueWritable(v, raw, limits.maxDepth - depth))
            && used + |ValuesBytes(values, raw)| <= limits.output
    decreases values, 0
  {
    hide SizeValue, ValueBytes, ValueWritable;
    if values != [] {
      assert ValuesBytes(values, raw) == ValueBytes(values[0], raw) + ValuesBytes(values[1..], raw);
      assert values[0] in values;
      ValueExactly(values[0], raw, depth, used, limits);
      ValueSizeIsLength(values[0], raw, depth, used, limits);
      var first := SizeValue(values[0], raw, depth, used, limits);
      if first.Ok? {
        ValuesExactly(values[1..], raw, depth, first.value, limits);
      }
      assert forall v :: v in values <==> v == values[0] || v in values[1..];
    }
  }

  lemma {:induction false} ValueExactly(value: Tag, raw: u8, depth: nat, used: nat, limits: Limits)
    requires used <= limits.output
    ensures SizeValue(value, raw, depth, used, limits).Ok? <==>
            ValueWritable(value, raw, limits.maxDepth - depth) && used + |ValueBytes(value, raw)| <= limits.output
    decreases value, 1
  {
    hide PayloadBytes, SizeTag, Writable;
    if NeedsWrapper(raw, value) {
      var head := SizeWrapperHead(depth, used, limits);
      if head.Ok? {
        WritesExactly(value, depth + 1, head.value, limits);
        SizeIsLength(value, depth + 1, head.value, limits);
      }
    } else {
      WritesExactly(value, depth, used, limits);
    }
  }

  lemma {:induction false} EntriesExactly(entries: seq<Entry>, depth: nat, used: nat, limits: Limits)
    requires used <= limits.output
    ensures SizeEntries(entries, depth, used, limits).Ok? <==>
            && (forall e :: e in entries ==> !e.value.End? && |Mutf8(e.name)| <= 0xffff && Writable(e.value, limits.maxDepth - depth))
            && used + |EntriesBytes(entries)| <= limits.output
    decreases entries, 0
  {
    hide Put, Mutf8, PayloadBytes, SizeTag, Writable;
    if entries != [] {
      var head := SizeEntryHead(entries[0], used, limits);
      if head.Ok? {
        WritesExactly(entries[0].value, depth, head.value, limits);
        SizeIsLength(entries[0].value, depth, head.value, limits);
        var value := SizeTag(entries[0].value, depth, head.value, limits);
        if value.Ok? {
          EntriesExactly(entries[1..], depth, value.value, limits);
        }
      }
      assert forall e :: e in entries <==> e == entries[0] || e in entries[1..];
    }
  }

  /** A network root is written exactly when it can be, its depth limit is allowed, and its bytes fit. */
  lemma NetworkExactly(tag: Tag, limits: Limits)
    ensures SizeNetwork(tag, limits).Ok? <==>
      limits.maxDepth <= 512 && Writable(tag, limits.maxDepth) && |NetworkBytes(tag)| <= limits.output
  {
    hide PayloadBytes, SizeTag, Writable;
    if limits.output >= 1 {
      WritesExactly(tag, 0, 1, limits);
    }
  }

  /** So is a named root; End has no name. */
  lemma NamedExactly(name: Units, tag: Tag, limits: Limits)
    ensures SizeNamed(name, tag, limits).Ok? <==>
      && limits.maxDepth <= 512 && Writable(tag, limits.maxDepth) && |NamedBytes(name, tag)| <= limits.output
      && if tag.End? then name == [] else |Mutf8(name)| <= 0xffff
  {
    hide PayloadBytes, SizeTag, Writable, Put, Mutf8;
    if limits.maxDepth <= 512 && !(tag.End? && name != []) {
      var head := SizeNamedHead(name, tag, 0, limits);
      if head.Ok? {
        WritesExactly(tag, 0, head.value, limits);
      }
    }
  }

  // ----- what the bytes look like -----

  lemma NumbersMean(v: u8, n: u16)
    ensures PayloadBytes(ByteTag(-1)) == [0xff]
    ensures PayloadBytes(ShortTag(-2)) == [0xff, 0xfe] && PayloadBytes(IntTag(-2)) == [0xff, 0xff, 0xff, 0xfe]
    ensures PayloadBytes(LongTag(0x0102_0304_0506_0708)) == [1, 2, 3, 4, 5, 6, 7, 8]
    ensures PayloadBytes(FloatTag(0x3f80_0000)) == [0x3f, 0x80, 0, 0]
    ensures PayloadBytes(DoubleTag(0xbff0_0000_0000_0000)) == [0xbf, 0xf0, 0, 0, 0, 0, 0, 0]
    ensures v < 0x80 ==> PayloadBytes(ByteTag(v)) == [v]
    ensures n < 0x8000 ==> PayloadBytes(ShortTag(n)) == [n / 0x100, n % 0x100]
  {
    hide Put, Span;
    Widths();
    PutMeans(0xff, 0xff, 0xff, 0xfe, 0);
    PutMeans(0xff, 0xff, 0xff, 0xff, 0);
    PutMeans(1, 2, 3, 4, 0);
    PutMeans(5, 6, 7, 8, 0x0102_0304);
    PutMeans(0x3f, 0x80, 0, 0, 0);
    PutMeans(0xbf, 0xf0, 0, 0, 0);
    PutMeans(0, 0, 0, 0, 0xbff0_0000);
    PutMeans(0, 0, n / 0x100, n % 0x100, 0);
    if v < 0x80 {
      PutMeans(0, 0, 0, v, 0);
    }
  }

  /** Counts are four bytes and string lengths two; elements and entries follow in order. */
  lemma ArraysMean(a: i8, b: i8, n: i32, v: i64)
    ensures PayloadBytes(ByteArray([a, b])) == [0, 0, 0, 2] + PayloadBytes(ByteTag(a)) + PayloadBytes(ByteTag(b))
    ensures PayloadBytes(IntArray([n])) == [0, 0, 0, 1] + PayloadBytes(IntTag(n))
    ensures PayloadBytes(LongArray([v])) == [0, 0, 0, 1] + PayloadBytes(LongTag(v))
    ensures PayloadBytes(StringTag([0x6f, 0x6b])) == [0, 2, 0x6f, 0x6b]
  {
    hide Put, Span, Mutf8;
    PutMeans(0, 0, 0, 2, 0);
    PutMeans(0, 0, 0, 1, 0);
    assert [a, b][1..] == [b] && [b][1..] == [] && [n][1..] == [] && [v][1..] == [];
    assert I8sBytes([a, b]) == PutI8(a) + I8sBytes([b]) && I8sBytes([b]) == PutI8(b) + I8sBytes([]);
    assert I32sBytes([n]) == PutI32(n) + I32sBytes([]);
    assert I64sBytes([v]) == PutI64(v) + I64sBytes([]);
    PlainUnits(0x6f, 0x6b);
  }

  lemma PlainUnits(a: u16, b: u16)
    requires 1 <= a <= 0x7f && 1 <= b <= 0x7f
    ensures Mutf8([a]) == [a] && Mutf8([a, b]) == [a, b]
  {
    assert [a][..0] == [] && [a, b][..1] == [a];
    assert Mutf8([]) == [];
    assert Mutf8([a]) == Mutf8([]) + UnitBytes(a);
    assert Mutf8([a, b]) == Mutf8([a]) + UnitBytes(b);
  }

  /** An empty list, a list of one type, and a mixed list, whose elements travel as nameless entries. */
  lemma ListsMean(a: Tag, b: Tag)
    requires !a.End? && !b.End? && !a.CompoundTag? && !b.CompoundTag?
    ensures PayloadBytes(ListTag([])) == [0, 0, 0, 0, 0]
    ensures PayloadBytes(ListTag([a, b])) ==
      if a.Id() == b.Id() then [a.Id(), 0, 0, 0, 2] + (PayloadBytes(a) + PayloadBytes(b))
      else [10, 0, 0, 0, 2] + (([a.Id(), 0, 0] + PayloadBytes(a) + [0]) + ([b.Id(), 0, 0] + PayloadBytes(b) + [0]))
  {
    hide Put, Span, PayloadBytes, ValueBytes;
    PutMeans(0, 0, 0, 0, 0);
    PutMeans(0, 0, 0, 2, 0);
    EmptyParts();
    ListOfTwo(a, b);
    ElementMeans(a);
    ElementMeans(b);
  }

  lemma EmptyParts()
    ensures PayloadBytes(ListTag([])) == [0] + Put(0, 4) && PayloadBytes(CompoundTag([])) == [0]
  {
  }

  /** In a list of compounds all but an ordinary compound is an entry without a name, closed like a compound. */
  lemma ElementMeans(value: Tag)
    ensures value.Id() != 10 ==> ValueBytes(value, value.Id()) == PayloadBytes(value)
    ensures ValueBytes(value, 10) == if value.CompoundTag? && !(|value.entries| == 1 && value.entries[0].name == []) then PayloadBytes(value)
                                     else [value.Id(), 0, 0] + PayloadBytes(value) + [0]
  {
    hide PayloadBytes;
  }

  lemma ListOfTwo(a: Tag, b: Tag)
    requires !a.End? && !b.End?
    ensures var raw := if a.Id() == b.Id() then a.Id() else 10;
      PayloadBytes(ListTag([a, b])) == [raw] + Put(2, 4) + (ValueBytes(a, raw) + ValueBytes(b, raw))
  {
    hide Put, ValueBytes;
    var s := [a, b];
    assert s[0] == a && s[1] == b;
    assert ElementType(s) == Ok(if a.Id() == b.Id() then a.Id() else 10);
    assert s[1..] == [b] && [b][1..] == [];
    var raw := ElementType(s).value;
    assert ValuesBytes(s, raw) == ValueBytes(a, raw) + ValuesBytes([b], raw);
    assert ValuesBytes([b], raw) == ValueBytes(b, raw) + ValuesBytes([], raw);
  }

  /** A named root of two entries. */
  lemma RootMeans(v: Tag, w: Tag)
    requires !v.End? && !w.End?
    ensures NamedBytes([0x68, 0x69], CompoundTag([Entry([0x61, 0x62], v), Entry([0x63, 0x64], w)])) ==
      [10, 0, 2, 0x68, 0x69] + ([v.Id(), 0, 2, 0x61, 0x62] + PayloadBytes(v) + ([w.Id(), 0, 2, 0x63, 0x64] + PayloadBytes(w) + [0]))
    ensures NamedBytes([], End) == [0]
  {
    hide *;
    var first, second := Entry([0x61, 0x62], v), Entry([0x63, 0x64], w);
    RootParts([0x68, 0x69], CompoundTag([first, second]));
    RootParts([], End);
    HeadMeans(0x68, 0x69, CompoundTag([first, second]));
    HeadMeans(0x61, 0x62, v);
    HeadMeans(0x63, 0x64, w);
    TwoEntries(first, second);
    EndMeans();
  }

  lemma RootParts(name: Units, tag: Tag)
    ensures NamedBytes(name, tag) == NamedHeadBytes(name, tag) + PayloadBytes(tag)
  {
  }

  lemma EndMeans()
    ensures PayloadBytes(End) == [] && NamedHeadBytes([], End) == [0]
  {
  }

  lemma HeadMeans(a: u16, b: u16, value: Tag)
    requires 1 <= a <= 0x7f && 1 <= b <= 0x7f && !value.End?
    ensures EntryHeadBytes(Entry([a, b], value)) == [value.Id(), 0, 2, a, b]
    ensures NamedHeadBytes([a, b], value) == [value.Id(), 0, 2, a, b]
    ensures value.CompoundTag? ==> value.Id() == 10
  {
    hide Put, Span, Mutf8;
    PutMeans(0, 0, 0, 2, 0);
    PlainUnits(a, b);
  }

  lemma TwoEntries(first: Entry, second: Entry)
    ensures PayloadBytes(CompoundTag([first, second])) ==
            EntryHeadBytes(first) + PayloadBytes(first.value) + (EntryHeadBytes(second) + PayloadBytes(second.value) + [0])
  {
    hide EntryHeadBytes;
    var entries := [first, second];
    assert entries[1..] == [second] && [second][1..] == [];
    assert EntriesBytes(entries) == EntryHeadBytes(first) + PayloadBytes(first.value) + EntriesBytes([second]);
    assert EntriesBytes([second]) == EntryHeadBytes(second) + PayloadBytes(second.value) + EntriesBytes([]);
  }

  /** The type bytes. */
  lemma IdsMean(tag: Tag)
    ensures match tag.Id()
            case 0 => tag.End?
            case 1 => tag.ByteTag?
            case 2 => tag.ShortTag?
            case 3 => tag.IntTag?
            case 4 => tag.LongTag?
            case 5 => tag.FloatTag?
            case 6 => tag.DoubleTag?
            case 7 => tag.ByteArray?
            case 8 => tag.StringTag?
            case 9 => tag.ListTag?
            case 10 => tag.CompoundTag?
            case 11 => tag.IntArray?
            case _ => tag.Id() == 12 && tag.LongArray?
  {
  }

  // ----- what reading keeps -----

  /** NaNs become one NaN and negative zero positive; no other value changes, and no structure. */
  lemma NormMeans(tag: Tag)
    ensures tag.FloatTag? ==> Norm(tag) == FloatTag(
      if tag.float / 0x80_0000 % 0x100 == 0xff && tag.float % 0x80_0000 != 0 then 0x7fc0_0000
      else if tag.float == 0x8000_0000 then 0 else tag.float)
    ensures tag.DoubleTag? ==> Norm(tag) == DoubleTag(
      if tag.double / 0x10_0000_0000_0000 % 0x800 == 0x7ff && tag.double % 0x10_0000_0000_0000 != 0 then 0x7ff8_0000_0000_0000
      else if tag.double == 0x8000_0000_0000_0000 then 0 else tag.double)
    ensures tag.ListTag? ==> Norm(tag).ListTag? && |Norm(tag).values| == |tag.values|
                             && forall i :: 0 <= i < |tag.values| ==> Norm(tag).values[i] == Norm(tag.values[i])
    ensures tag.CompoundTag? ==> Norm(tag).CompoundTag? && |Norm(tag).entries| == |tag.entries|
                                 && forall i :: 0 <= i < |tag.entries| ==> Norm(tag).entries[i] == Entry(tag.entries[i].name, Norm(tag.entries[i].value))
    ensures !tag.FloatTag? && !tag.DoubleTag? && !tag.ListTag? && !tag.CompoundTag? ==> Norm(tag) == tag
  {
    match tag
    case FloatTag(bits) => Nan32Means(bits);
    case DoubleTag(bits) => Nan64Means(bits);
    case ListTag(values) => NormAllAt(values);
    case CompoundTag(entries) => NormEntriesAt(entries);
    case _ =>
  }

  lemma {:induction false} NormAllAt(values: seq<Tag>)
    ensures forall i :: 0 <= i < |values| ==> NormAll(values)[i] == Norm(values[i])
  {
    if values != [] {
      NormAllAt(values[1..]);
      assert forall i :: 0 < i < |values| ==> values[1..][i - 1] == values[i];
    }
  }

  lemma {:induction false} NormEntriesAt(entries: seq<Entry>)
    ensures forall i :: 0 <= i < |entries| ==> NormEntries(entries)[i] == Entry(entries[i].name, Norm(entries[i].value))
  {
    if entries != [] {
      NormEntriesAt(entries[1..]);
      assert forall i :: 0 < i < |entries| ==> entries[1..][i - 1] == entries[i];
    }
  }
}
