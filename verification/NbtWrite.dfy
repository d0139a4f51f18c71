/** Binary NBT output: bytes, limits and the order of errors; and the writer that keeps to them. */
module NbtWrite {
  import opened World
  import opened BigEndian
  import opened Nbt

  // ----- bytes -----

  function PutI8(value: i8): Bytes {
    Widths();
    Put(Unsigned(value, 1), 1)
  }

  function PutI16(value: i16): Bytes {
    Widths();
    Put(Unsigned(value, 2), 2)
  }

  function PutI32(value: i32): Bytes {
    Widths();
    Put(Unsigned(value, 4), 4)
  }

  function PutI64(value: i64): Bytes {
    Widths();
    Put(Unsigned(value, 8), 8)
  }

  function I8sBytes(values: seq<i8>): Bytes {
    if values == [] then [] else PutI8(values[0]) + I8sBytes(values[1..])
  }

  function I32sBytes(values: seq<i32>): Bytes {
    if values == [] then [] else PutI32(values[0]) + I32sBytes(values[1..])
  }

  function I64sBytes(values: seq<i64>): Bytes {
    if values == [] then [] else PutI64(values[0]) + I64sBytes(values[1..])
  }

  lemma {:induction false} ArrayLengths(bytes: seq<i8>, ints: seq<i32>, longs: seq<i64>)
    ensures |I8sBytes(bytes)| == |bytes| && |I32sBytes(ints)| == 4 * |ints| && |I64sBytes(longs)| == 8 * |longs|
    decreases |bytes| + |ints| + |longs|
  {
    if bytes != [] {
      ArrayLengths(bytes[1..], ints, longs);
    }
    if ints != [] {
      ArrayLengths(bytes, ints[1..], longs);
    }
    if longs != [] {
      ArrayLengths(bytes, ints, longs[1..]);
    }
  }

  function StringBytes(units: Units): Bytes {
    Put(|Mutf8(units)|, 2) + Mutf8(units)
  }

  /** A list's wire type: its elements' common type, or compound when they differ. */
  function ElementType(values: seq<Tag>): Result<u8, NbtError> {
    if exists i :: 0 <= i < |values| && values[i].End? then Err(UnexpectedEnd)
    else if values == [] then Ok(0)
    else if forall i :: 0 <= i < |values| ==> values[i].Id() == values[0].Id() then Ok(values[0].Id())
    else Ok(10)
  }

  /** In a compound list, everything but an ordinary compound travels inside a wrapper. */
  predicate NeedsWrapper(raw: u8, value: Tag) {
    raw == 10 && !(value.CompoundTag? && !value.IsWrapper())
  }

  function PayloadBytes(tag: Tag): Bytes
    decreases tag, 0
  {
    match tag
    case End => []
    case ByteTag(v) => PutI8(v)
    case ShortTag(v) => PutI16(v)
    case IntTag(v) => PutI32(v)
    case LongTag(v) => PutI64(v)
    case FloatTag(bits) => Put(Canon32(bits), 4)
    case DoubleTag(bits) => Put(Canon64(bits), 8)
    case ByteArray(v) => Put(|v|, 4) + I8sBytes(v)
    case StringTag(units) => StringBytes(units)
    case ListTag(values) =>
      if ElementType(values).Err? then [] else [ElementType(values).value] + Put(|values|, 4) + ValuesBytes(values, ElementType(values).value)
    case CompoundTag(entries) => EntriesBytes(entries)
    case IntArray(v) => Put(|v|, 4) + I32sBytes(v)
    case LongArray(v) => Put(|v|, 4) + I64sBytes(v)
  }

  function ValuesBytes(values: seq<Tag>, raw: u8): Bytes
    decreases values, 0
  {
    if values == [] then []
    else ValueBytes(values[0], raw) + ValuesBytes(values[1..], raw)
  }

  function ValueBytes(value: Tag, raw: u8): Bytes
    decreases value, 1
  {
    if NeedsWrapper(raw, value) then [value.Id()] + [0, 0] + PayloadBytes(value) + [0] else PayloadBytes(value)
  }

  /** Entries, each with its type and name, then the End byte. */
  function EntriesBytes(entries: seq<Entry>): Bytes
    decreases entries, 0
  {
    if entries == [] then [0]
    else EntryHeadBytes(entries[0]) + PayloadBytes(entries[0].value) + EntriesBytes(entries[1..])
  }

  function EntryHeadBytes(entry: Entry): Bytes {
    [entry.value.Id()] + StringBytes(entry.name)
  }

  /** End is its type byte alone. */
  function NamedHeadBytes(name: Units, tag: Tag): Bytes {
    [tag.Id()] + if tag.End? then [] else StringBytes(name)
  }

  // ----- sizes and errors -----

  function Add(used: nat, bytes: nat, limits: Limits): Result<nat, NbtError> {
    if used + bytes > limits.output then Err(OutputLimit) else Ok(used + bytes)
  }

  function AddLength(count: nat, used: nat, limits: Limits): Result<nat, NbtError> {
    if count > I32_MAX then Err(LengthOverflow) else Add(used, 4, limits)
  }

  function AddString(units: Units, used: nat, limits: Limits): Result<nat, NbtError> {
    if |Mutf8(units)| > 0xffff then Err(StringTooLong) else Add(used, |Mutf8(units)| + 2, limits)
  }

  function AddArray(count: nat, width: nat, used: nat, limits: Limits): Result<nat, NbtError> {
    var head := AddLength(count, used, limits);
    if head.Err? then head else Add(head.value, count * width, limits)
  }

  /** Bytes used after a payload, or the first error of format, depth or output limit. */
  function SizeTag(tag: Tag, depth: nat, used: nat, limits: Limits): Result<nat, NbtError>
    decreases tag, 0
  {
    match tag
    case End => Ok(used)
    case ByteTag(_) => Add(used, 1, limits)
    case ShortTag(_) => Add(used, 2, limits)
    case IntTag(_) => Add(used, 4, limits)
    case LongTag(_) => Add(used, 8, limits)
    case FloatTag(_) => Add(used, 4, limits)
    case DoubleTag(_) => Add(used, 8, limits)
    case ByteArray(v) => AddArray(|v|, 1, used, limits)
    case StringTag(units) => AddString(units, used, limits)
    case IntArray(v) => AddArray(|v|, 4, used, limits)
    case LongArray(v) => AddArray(|v|, 8, used, limits)
    case CompoundTag(entries) =>
      if depth >= limits.maxDepth then Err(DepthLimit) else SizeEntries(entries, depth + 1, used, limits)
    case ListTag(values) =>
      var head := SizeListHead(values, depth, used, limits);
      if head.Err? then head else SizeValues(values, ElementType(values).value, depth + 1, head.value, limits)
  }

  function SizeListHead(values: seq<Tag>, depth: nat, used: nat, limits: Limits): (r: Result<nat, NbtError>)
    ensures r.Ok? ==> ElementType(values).Ok? && depth < limits.maxDepth
  {
    if depth >= limits.maxDepth then Err(DepthLimit)
    else
      var raw := ElementType(values);
      if raw.Err? then Err(raw.error)
      else
        var typed := Add(used, 1, limits);
        if typed.Err? then typed else AddLength(|values|, typed.value, limits)
  }

  function SizeValues(values: seq<Tag>, raw: u8, depth: nat, used: nat, limits: Limits): Result<nat, NbtError>
    decreases values, 0
  {
    if values == [] then Ok(used)
    else
      var first := SizeValue(values[0], raw, depth, used, limits);
      if first.Err? then first else SizeValues(values[1..], raw, depth, first.value, limits)
  }

  function SizeValue(value: Tag, raw: u8, depth: nat, used: nat, limits: Limits): Result<nat, NbtError>
    decreases value, 1
  {
    if NeedsWrapper(raw, value) then
      var head := SizeWrapperHead(depth, used, limits);
      if head.Err? then head
      else
        var inner := SizeTag(value, depth + 1, head.value, limits);
        if inner.Err? then inner else Add(inner.value, 1, limits)
    else SizeTag(value, depth, used, limits)
  }

  /** A wrapper is one more container: its entry's type byte and an empty name. */
  function SizeWrapperHead(depth: nat, used: nat, limits: Limits): Result<nat, NbtError> {
    if depth >= limits.maxDepth then Err(DepthLimit)
    else
      var typed := Add(used, 1, limits);
      if typed.Err? then typed else Add(typed.value, 2, limits)
  }

  function SizeEntries(entries: seq<Entry>, depth: nat, used: nat, limits: Limits): Result<nat, NbtError>
    decreases entries, 0
  {
    if entries == [] then Add(used, 1, limits)
    else
      var head := SizeEntryHead(entries[0], used, limits);
      if head.Err? then head
      else
        var value := SizeTag(entries[0].value, depth, head.value, limits);
        if value.Err? then value else SizeEntries(entries[1..], depth, value.value, limits)
  }

  function SizeEntryHead(entry: Entry, used: nat, limits: Limits): Result<nat, NbtError> {
    if entry.value.End? then Err(UnexpectedEnd)
    else
      var typed := Add(used, 1, limits);
      if typed.Err? then typed else AddString(entry.name, typed.value, limits)
  }

  function SizeNamedHead(name: Units, tag: Tag, used: nat, limits: Limits): Result<nat, NbtError> {
    var typed := Add(used, 1, limits);
    if typed.Err? || tag.End? then typed else AddString(name, typed.value, limits)
  }

  // ----- sizes are lengths -----

  /** A successful size is exactly the number of bytes written. */
  lemma {:induction false} SizeIsLength(tag: Tag, depth: nat, used: nat, limits: Limits)
    ensures SizeTag(tag, depth, used, limits).Ok? ==> SizeTag(tag, depth, used, limits).value == used + |PayloadBytes(tag)|
    decreases tag, 0
  {
    hide Put, Mutf8, ElementType;
    match tag
    case ByteArray(v) => ArrayLengths(v, [], []);
    case IntArray(v) => ArrayLengths([], v, []);
    case LongArray(v) => ArrayLengths([], [], v);
    case CompoundTag(entries) => EntriesSizeIsLength(entries, depth + 1, used, limits);
    case ListTag(values) =>
      var head := SizeListHead(values, depth, used, limits);
      if head.Ok? {
        ValuesSizeIsLength(values, ElementType(values).value, depth + 1, head.value, limits);
      }
    case _ =>
  }

  lemma {:induction false} ValuesSizeIsLength(values: seq<Tag>, raw: u8, depth: nat, used: nat, limits: Limits)
    ensures SizeValues(values, raw, depth, used, limits).Ok? ==>
              SizeValues(values, raw, depth, used, limits).value == used + |ValuesBytes(values, raw)|
    decreases values, 0
  {
    if values != [] {
      ValueSizeIsLength(values[0], raw, depth, used, limits);
      var first := SizeValue(values[0], raw, depth, used, limits);
      if first.Ok? {
        ValuesSizeIsLength(values[1..], raw, depth, first.value, limits);
      }
    }
  }

  lemma {:induction false} ValueSizeIsLength(value: Tag, raw: u8, depth: nat, used: nat, limits: Limits)
    ensures SizeValue(value, raw, depth, used, limits).Ok? ==>
              SizeValue(value, raw, depth, used, limits).value == used + |ValueBytes(value, raw)|
    decreases value, 1
  {
    if NeedsWrapper(raw, value) {
      var head := SizeWrapperHead(depth, used, limits);
      if head.Ok? {
        SizeIsLength(value, depth + 1, head.value, limits);
      }
    } else {
      SizeIsLength(value, depth, used, limits);
    }
  }

  lemma {:induction false} EntriesSizeIsLength(entries: seq<Entry>, depth: nat, used: nat, limits: Limits)
    ensures SizeEntries(entries, depth, used, limits).Ok? ==>
              SizeEntries(entries, depth, used, limits).value == used + |EntriesBytes(entries)|
    decreases entries, 0
  {
    hide Put, Mutf8;
    if entries != [] {
      var head := SizeEntryHead(entries[0], used, limits);
      if head.Ok? {
        SizeIsLength(entries[0].value, depth, head.value, limits);
        var value := SizeTag(entries[0].value, depth, head.value, limits);
        if value.Ok? {
          EntriesSizeIsLength(entries[1..], depth, value.value, limits);
        }
      }
    }
  }

  // ----- the writer -----

  /** Appending succeeded with these bytes, or failed as the size says. */
  ghost predicate Wrote(r: Result<(), NbtError>, before: Bytes, after: Bytes, bytes: Bytes, size: Result<nat, NbtError>) {
    before <= after && match size
                       case Ok(_) => r == Ok(()) && after == before + bytes
                       case Err(e) => r == Err(e)
  }

  method ListElementType(values: seq<Tag>) returns (r: Result<u8, NbtError>)
    ensures r == ElementType(values)
  {
    var raw: u8 := 0;
    for i := 0 to |values|
      invariant forall k :: 0 <= k < i ==> !values[k].End?
      invariant i == 0 ==> raw == 0
      invariant i > 0 ==> raw == if forall k :: 0 <= k < i ==> values[k].Id() == values[0].Id() then values[0].Id() else 10
    {
      if values[i].End? {
        return Err(UnexpectedEnd);
      }
      if raw == 0 {
        raw := values[i].Id();
      } else if raw != values[i].Id() {
        raw := 10;
      }
    }
    r := Ok(raw);
  }

  class Writer {
    var output: Bytes
    const start: nat
    const limits: Limits

    constructor (output: Bytes, limits: Limits)
      ensures this.output == output && start == |output| && this.limits == limits
    {
      this.output, this.start, this.limits := output, |output|, limits;
    }

    ghost predicate Valid() reads `output {
      start <= |output|
    }

    function Used(): nat reads `output requires Valid() {
      |output| - start
    }

    method Emit(bytes: Bytes) returns (r: Result<(), NbtError>)
      requires Valid()
      modifies `output
      ensures Valid() && Wrote(r, old(output), output, bytes, Add(old(Used()), |bytes|, limits))
      ensures r.Ok? ==> Add(old(Used()), |bytes|, limits) == Ok(Used())
    {
      if Used() + |bytes| > limits.output {
        return Err(OutputLimit);
      }
      output := output + bytes;
      r := Ok(());
    }

    method Length(count: nat) returns (r: Result<(), NbtError>)
      requires Valid()
      modifies `output
      ensures Valid() && Wrote(r, old(output), output, Put(count, 4), AddLength(count, old(Used()), limits))
      ensures r.Ok? ==> AddLength(count, old(Used()), limits) == Ok(Used())
    {
      if count > I32_MAX {
        return Err(LengthOverflow);
      }
      r := Emit(Put(count, 4));
    }

    method String(units: Units) returns (r: Result<(), NbtError>)
      requires Valid()
      modifies `output
      ensures Valid() && Wrote(r, old(output), output, StringBytes(units), AddString(units, old(Used()), limits))
      ensures r.Ok? ==> AddString(units, old(Used()), limits) == Ok(Used())
    {
      hide Put, Mutf8;
      var length := Mutf8Length(units);
      if length.Err? {
        return Err(length.error);
      }
      var bytes := WriteUnits(units);
      r := Emit(Put(length.value, 2) + bytes);
    }

    method Array(count: nat, width: nat, bytes: Bytes) returns (r: Result<(), NbtError>)
      requires Valid() && |bytes| == count * width
      modifies `output
      ensures Valid() && Wrote(r, old(output), output, Put(count, 4) + bytes, AddArray(count, width, old(Used()), limits))
      ensures r.Ok? ==> AddArray(count, width, old(Used()), limits) == Ok(Used())
    {
      hide Put;
      r := Length(count);
      if r.Ok? {
        r := Emit(bytes);
      }
    }

    /** Writes one payload; an error is the first one the recursive size meets. */
    method Payload(tag: Tag, depth: nat) returns (r: Result<(), NbtError>)
      requires Valid()
      modifies `output
      ensures Valid() && Wrote(r, old(output), output, PayloadBytes(tag), SizeTag(tag, depth, old(Used()), limits))
      ensures r.Ok? ==> SizeTag(tag, depth, old(Used()), limits) == Ok(Used())
      decreases tag, 0
    {
      hide Put, Mutf8, ElementType, I8sBytes, I32sBytes, I64sBytes;
      match tag
      case End => r := Ok(());
      case ByteTag(v) => r := Emit(PutI8(v));
      case ShortTag(v) => r := Emit(PutI16(v));
      case IntTag(v) => r := Emit(PutI32(v));
      case LongTag(v) => r := Emit(PutI64(v));
      case FloatTag(bits) => r := Emit(Put(Canon32(bits), 4));
      case DoubleTag(bits) => r := Emit(Put(Canon64(bits), 8));
      case ByteArray(v) =>
        ArrayLengths(v, [], []);
        r := Array(|v|, 1, I8sBytes(v));
      case StringTag(units) => r := String(units);
      case ListTag(values) => r := List(values, depth);
      case CompoundTag(entries) =>
        if depth >= limits.maxDepth {
          return Err(DepthLimit);
        }
        r := Entries(entries, depth + 1);
      case IntArray(v) =>
        ArrayLengths([], v, []);
        r := Array(|v|, 4, I32sBytes(v));
      case LongArray(v) =>
        ArrayLengths([], [], v);
        r := Array(|v|, 8, I64sBytes(v));
    }

    method List(values: seq<Tag>, depth: nat) returns (r: Result<(), NbtError>)
      requires Valid()
      modifies `output
      ensures Valid() && Wrote(r, old(output), output, PayloadBytes(ListTag(values)), SizeTag(ListTag(values), depth, old(Used()), limits))
      ensures r.Ok? ==> SizeTag(ListTag(values), depth, old(Used()), limits) == Ok(Used())
      decreases values, 1
    {
      hide Put, ElementType, ValuesBytes, SizeValues;
      if depth >= limits.maxDepth {
        return Err(DepthLimit);
      }
      var raw := ListElementType(values);
      if raw.Err? {
        return Err(raw.error);
      }
      r := Emit([raw.value]);
      if r.Err? {
        return;
      }
      r := Length(|values|);
      if r.Err? {
        return;
      }
      r := Values(values, raw.value, depth + 1);
    }

    method Values(values: seq<Tag>, raw: u8, depth: nat) returns (r: Result<(), NbtError>)
      requires Valid()
      modifies `output
      ensures Valid() && Wrote(r, old(output), output, ValuesBytes(values, raw), SizeValues(values, raw, depth, old(Used()), limits))
      ensures r.Ok? ==> SizeValues(values, raw, depth, old(Used()), limits) == Ok(Used())
      decreases values, 0
    {
      hide ValueBytes, SizeValue;
      if values == [] {
        return Ok(());
      }
      r := Value(values[0], raw, depth);
      if r.Ok? {
        r := Values(values[1..], raw, depth);
      }
    }

    /** One list element, wrapped on the fly when its list is mixed. */
    method Value(value: Tag, raw: u8, depth: nat) returns (r: Result<(), NbtError>)
      requires Valid()
      modifies `output
      ensures Valid() && Wrote(r, old(output), output, ValueBytes(value, raw), SizeValue(value, raw, depth, old(Used()), limits))
      ensures r.Ok? ==> SizeValue(value, raw, depth, old(Used()), limits) == Ok(Used())
      decreases value, 1
    {
      hide PayloadBytes, SizeTag;
      if !NeedsWrapper(raw, value) {
        r := Payload(value, depth);
        return;
      }
      if depth >= limits.maxDepth {
        return Err(DepthLimit);
      }
      r := Emit([value.Id()]);
      if r.Err? {
        return;
      }
      r := Emit([0, 0]);
      if r.Err? {
        return;
      }
      r := Payload(value, depth + 1);
      if r.Ok? {
        r := Emit([0]);
      }
    }

    /** An entry's type byte and name; End has no wire form as an entry. */
    method EntryHead(entry: Entry) returns (r: Result<(), NbtError>)
      requires Valid()
      modifies `output
      ensures Valid() && Wrote(r, old(output), output, EntryHeadBytes(entry), SizeEntryHead(entry, old(Used()), limits))
      ensures r.Ok? ==> SizeEntryHead(entry, old(Used()), limits) == Ok(Used())
    {
      hide StringBytes, AddString;
      if entry.value.End? {
        return Err(UnexpectedEnd);
      }
      r := Emit([entry.value.Id()]);
      if r.Ok? {
        r := String(entry.name);
      }
    }

    /** A root's type byte and, unless it is End, its name. */
    method NamedHead(name: Units, tag: Tag) returns (r: Result<(), NbtError>)
      requires Valid()
      modifies `output
      ensures Valid() && Wrote(r, old(output), output, NamedHeadBytes(name, tag), SizeNamedHead(name, tag, old(Used()), limits))
      ensures r.Ok? ==> SizeNamedHead(name, tag, old(Used()), limits) == Ok(Used()) && Used() <= limits.output
    {
      hide StringBytes;
      r := Emit([tag.Id()]);
      if r.Ok? && !tag.End? {
        r := String(name);
      }
    }

    method Entries(entries: seq<Entry>, depth: nat) returns (r: Result<(), NbtError>)
      requires Valid()
      modifies `output
      ensures Valid() && Wrote(r, old(output), output, EntriesBytes(entries), SizeEntries(entries, depth, old(Used()), limits))
      ensures r.Ok? ==> SizeEntries(entries, depth, old(Used()), limits) == Ok(Used())
      decreases entries, 0
    {
      hide PayloadBytes, SizeTag, EntryHeadBytes, SizeEntryHead;
      if entries == [] {
        r := Emit([0]);
        return;
      }
      r := EntryHead(entries[0]);
      if r.Err? {
        return;
      }
      r := Payload(entries[0].value, depth);
      if r.Ok? {
        r := Entries(entries[1..], depth);
      }
    }
  }

  /** The size of a whole network root, type byte included. */
  function SizeNetwork(tag: Tag, limits: Limits): Result<nat, NbtError> {
    if limits.maxDepth > 512 then Err(InvalidDepthLimit)
    else
      var typed := Add(0, 1, limits);
      if typed.Err? then typed else SizeTag(tag, 0, typed.value, limits)
  }

  function NetworkBytes(tag: Tag): Bytes {
    [tag.Id()] + PayloadBytes(tag)
  }

  /** Appends one network root; on any error the original output is intact. */
  method WriteNetwork(tag: Tag, output: Bytes, limits: Limits) returns (r: Result<(), NbtError>, after: Bytes)
    ensures match SizeNetwork(tag, limits)
            case Ok(n) => r == Ok(()) && after == output + NetworkBytes(tag) && n == |NetworkBytes(tag)|
            case Err(e) => r == Err(e) && after == output
  {
    hide PayloadBytes, SizeTag;
    after := output;
    if limits.maxDepth > 512 {
      return Err(InvalidDepthLimit), after;
    }
    var writer := new Writer(output, limits);
    r := writer.Emit([tag.Id()]);
    if r.Ok? {
      r := writer.Payload(tag, 0);
    }
    after := if r.Err? then writer.output[..writer.start] else writer.output;
  }

  /** What a named root takes, or the first error met; End has neither name nor payload. */
  function SizeNamed(name: Units, tag: Tag, limits: Limits): Result<nat, NbtError> {
    if limits.maxDepth > 512 then Err(InvalidDepthLimit)
    else if tag.End? && name != [] then Err(NamedEnd)
    else
      var head := SizeNamedHead(name, tag, 0, limits);
      if head.Err? then head else SizeTag(tag, 0, head.value, limits)
  }

  function NamedBytes(name: Units, tag: Tag): Bytes {
    NamedHeadBytes(name, tag) + PayloadBytes(tag)
  }

  /** Appends one named root; on any error the original output is intact. */
  method WriteNamed(name: Units, tag: Tag, output: Bytes, limits: Limits) returns (r: Result<(), NbtError>, after: Bytes)
    ensures match SizeNamed(name, tag, limits)
            case Ok(n) => r == Ok(()) && after == output + NamedBytes(name, tag) && n == |NamedBytes(name, tag)| <= limits.output
            case Err(e) => r == Err(e) && after == output
  {
    hide PayloadBytes, SizeTag, NamedHeadBytes, SizeNamedHead;
    after := output;
    if limits.maxDepth > 512 {
      return Err(InvalidDepthLimit), after;
    }
    if tag.End? && name != [] {
      return Err(NamedEnd), after;
    }
    var writer := new Writer(output, limits);
    r := writer.NamedHead(name, tag);
    if r.Ok? {
      SizeWithin(tag, 0, writer.Used(), limits);
      r := writer.Payload(tag, 0);
      Appended(output, NamedHeadBytes(name, tag), PayloadBytes(tag));
    }
    after := if r.Err? then writer.output[..writer.start] else writer.output;
  }

  lemma Appended(output: Bytes, head: Bytes, body: Bytes)
    ensures output + head + body == output + (head + body)
  {
  }

  lemma {:induction false} SizeWithin(tag: Tag, depth: nat, used: nat, limits: Limits)
    requires used <= limits.output
    ensures SizeTag(tag, depth, used, limits).Ok? ==> SizeTag(tag, depth, used, limits).value <= limits.output
    decreases tag, 0
  {
    match tag
    case CompoundTag(entries) => EntriesWithin(entries, depth + 1, used, limits);
    case ListTag(values) =>
      var head := SizeListHead(values, depth, used, limits);
      if head.Ok? {
        ValuesWithin(values, ElementType(values).value, depth + 1, head.value, limits);
      }
    case _ =>
  }

  lemma {:induction false} ValuesWithin(values: seq<Tag>, raw: u8, depth: nat, used: nat, limits: Limits)
    requires used <= limits.output
    ensures SizeValues(values, raw, depth, used, limits).Ok? ==> SizeValues(values, raw, depth, used, limits).value <= limits.output
    decreases values, 0
  {
    if values != [] {
      if NeedsWrapper(raw, values[0]) {
        var head := SizeWrapperHead(depth, used, limits);
        if head.Ok? {
          SizeWithin(values[0], depth + 1, head.value, limits);
        }
      } else {
        SizeWithin(values[0], depth, used, limits);
      }
      var first := SizeValue(values[0], raw, depth, used, limits);
      if first.Ok? {
        ValuesWithin(values[1..], raw, depth, first.value, limits);
      }
    }
  }

  lemma {:induction false} EntriesWithin(entries: seq<Entry>, depth: nat, used: nat, limits: Limits)
    requires used <= limits.output
    ensures SizeEntries(entries, depth, used, limits).Ok? ==> SizeEntries(entries, depth, used, limits).value <= limits.output
    decreases entries, 0
  {
    if entries != [] {
      var head := SizeEntryHead(entries[0], used, limits);
      if head.Ok? {
        SizeWithin(entries[0].value, depth, head.value, limits);
        var value := SizeTag(entries[0].value, depth, head.value, limits);
        if value.Ok? {
          EntriesWithin(entries[1..], depth, value.value, limits);
        }
      }
    }
  }
}
