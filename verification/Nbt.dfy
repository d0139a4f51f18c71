/** NBT values: tags, sorted compounds, and the numeric and text forms they share. */
module Nbt {
  import opened World
  import opened BigEndian

  type i8 = x: int | -0x80 <= x < 0x80
  type i16 = x: int | -0x8000 <= x < 0x8000

  /** Java strings are UTF-16 code units, unpaired surrogates included. */
  type Units = seq<u16>

  datatype Entry = Entry(name: Units, value: Tag)

  /** Floats are their IEEE bit patterns. */
  datatype Tag =
    | End
    | ByteTag(byte: i8)
    | ShortTag(short: i16)
    | IntTag(int_: i32)
    | LongTag(long: i64)
    | FloatTag(float: u32)
    | DoubleTag(double: u64)
    | ByteArray(bytes: seq<i8>)
    | StringTag(units: Units)
    | ListTag(values: seq<Tag>)
    | CompoundTag(entries: seq<Entry>)
    | IntArray(ints: seq<i32>)
    | LongArray(longs: seq<i64>)
  {
    function Id(): u8 {
      match this
      case End => 0
      case ByteTag(_) => 1
      case ShortTag(_) => 2
      case IntTag(_) => 3
      case LongTag(_) => 4
      case FloatTag(_) => 5
      case DoubleTag(_) => 6
      case ByteArray(_) => 7
      case StringTag(_) => 8
      case ListTag(_) => 9
      case CompoundTag(_) => 10
      case IntArray(_) => 11
      case LongArray(_) => 12
    }

    /** A compound of one nameless entry: the wire form of an element of a mixed list. */
    predicate IsWrapper() {
      CompoundTag? && |entries| == 1 && entries[0].name == []
    }
  }

  datatype NbtError =
    | Truncated | UnknownTag(id: u8) | NegativeLength(count: i32) | UnexpectedEnd | InvalidModifiedUtf8 | StringTooLong
    | LengthOverflow | DepthLimit | InvalidDepthLimit | VanillaQuotaExceeded | AllocationBudgetExceeded | OutputLimit | NamedEnd

  datatype Limits = Limits(quota: nat, allocation: nat, maxDepth: nat, output: nat)

  // ----- names in order -----

  /** Lexicographic order on code units. */
  predicate Less(a: Units, b: Units) {
    if b == [] then false
    else if a == [] then true
    else if a[0] != b[0] then a[0] < b[0] else Less(a[1..], b[1..])
  }

  /** The first difference decides; a proper prefix comes first. */
  lemma {:induction false} LessMeans(a: Units, b: Units)
    ensures Less(a, b) <==> exists i :: FirstDifference(a, b, i) && (i == |a| || (i < |b| && a[i] < b[i]))
  {
    if a == [] || b == [] || a[0] != b[0] {
      assert b != [] ==> FirstDifference(a, b, 0);
    } else {
      LessMeans(a[1..], b[1..]);
      if Less(a, b) {
        var i :| FirstDifference(a[1..], b[1..], i) && (i == |a| - 1 || (i < |b| - 1 && a[1..][i] < b[1..][i]));
        assert a[..i + 1] == [a[0]] + a[1..][..i] && b[..i + 1] == [b[0]] + b[1..][..i];
        assert FirstDifference(a, b, i + 1);
      }
      forall i | FirstDifference(a, b, i) ensures i > 0 && FirstDifference(a[1..], b[1..], i - 1) {
        if i > 0 {
          assert a[1..][..i - 1] == a[..i][1..] && b[1..][..i - 1] == b[..i][1..];
        }
      }
    }
  }

  /** Two names agree up to here and no further, and the second goes on. */
  ghost predicate FirstDifference(a: Units, b: Units, i: int) {
    0 <= i <= |a| && i < |b| && a[..i] == b[..i] && (i < |a| ==> a[i] != b[i])
  }

  lemma {:induction false} LessIrreflexive(a: Units)
    ensures !Less(a, a)
  {
    if a != [] {
      LessIrreflexive(a[1..]);
    }
  }

  lemma {:induction false} LessTransitive(a: Units, b: Units, c: Units)
    requires Less(a, b) && Less(b, c)
    ensures Less(a, c)
  {
    if a != [] && a[0] == b[0] && b[0] == c[0] {
      LessTransitive(a[1..], b[1..], c[1..]);
    }
  }

  lemma {:induction false} LessTotal(a: Units, b: Units)
    ensures Less(a, b) || Less(b, a) || a == b
  {
    if a != [] && b != [] && a[0] == b[0] {
      LessTotal(a[1..], b[1..]);
      assert a == [a[0]] + a[1..] && b == [b[0]] + b[1..];
    }
  }

  /** Strictly ascending names: sorted, and each name once. */
  predicate Ascending(entries: seq<Entry>) {
    forall i, j :: 0 <= i < j < |entries| ==> Less(entries[i].name, entries[j].name)
  }

  /** Every compound of the tree keeps its entries strictly ascending. */
  predicate Canonical(tag: Tag)
    decreases tag
  {
    match tag
    case ListTag(values) => forall v :: v in values ==> Canonical(v)
    case CompoundTag(entries) => Ascending(entries) && forall e :: e in entries ==> Canonical(e.value)
    case _ => true
  }

  /** What a compound maps a name to. */
  function Lookup(entries: seq<Entry>, name: Units): Option<Tag> {
    if entries == [] then None
    else if entries[|entries| - 1].name == name then Some(entries[|entries| - 1].value)
    else Lookup(entries[..|entries| - 1], name)
  }

  /** The last entry of a name decides. */
  lemma {:induction false} LookupMeans(entries: seq<Entry>, name: Units)
    ensures Lookup(entries, name).None? <==> forall i :: 0 <= i < |entries| ==> entries[i].name != name
    ensures forall i :: 0 <= i < |entries| && entries[i].name == name && (forall k :: i < k < |entries| ==> entries[k].name != name) ==>
              Lookup(entries, name) == Some(entries[i].value)
  {
    if entries != [] {
      var n := |entries| - 1;
      LookupMeans(entries[..n], name);
      assert forall i :: 0 <= i < n ==> entries[..n][i] == entries[i];
    }
  }

  lemma {:induction false} LookupAt(entries: seq<Entry>, i: nat)
    requires Ascending(entries) && i < |entries|
    ensures Lookup(entries, entries[i].name) == Some(entries[i].value)
    decreases |entries|
  {
    if i < |entries| - 1 {
      LessIrreflexive(entries[i].name);
      LookupAt(entries[..|entries| - 1], i);
    }
  }

  lemma {:induction false} LookupMissing(entries: seq<Entry>, name: Units)
    requires forall i :: 0 <= i < |entries| ==> entries[i].name != name
    ensures Lookup(entries, name) == None
  {
    if entries != [] {
      LookupMissing(entries[..|entries| - 1], name);
    }
  }

  lemma {:induction false} LookupFound(entries: seq<Entry>, name: Units)
    requires Lookup(entries, name).Some?
    ensures exists i :: 0 <= i < |entries| && entries[i].name == name && entries[i].value == Lookup(entries, name).value
  {
    var n := |entries| - 1;
    if entries[n].name != name {
      LookupFound(entries[..n], name);
      var i :| 0 <= i < n && entries[..n][i].name == name && entries[..n][i].value == Lookup(entries, name).value;
      assert entries[i].name == name;
    }
  }

  /** Ascending entries are determined by what they map names to. */
  lemma {:induction false} AscendingUnique(a: seq<Entry>, b: seq<Entry>)
    requires Ascending(a) && Ascending(b) && forall name :: Lookup(a, name) == Lookup(b, name)
    ensures a == b
    decreases |a|
  {
    if a == [] {
      if b != [] {
        assert Lookup(a, b[0].name) == Lookup(b, b[0].name);
        LookupAt(b, 0);
      }
    } else {
      LookupAt(a, |a| - 1);
      assert Lookup(a, a[|a| - 1].name) == Lookup(b, a[|a| - 1].name);
      LastNameAgrees(a, b);
      var m, n := |a| - 1, |b| - 1;
      LookupAt(b, n);
      forall name ensures Lookup(a[..m], name) == Lookup(b[..n], name) {
        assert Lookup(a, name) == Lookup(b, name);
        if name == a[m].name {
          forall i | 0 <= i < m ensures a[..m][i].name != name {
            LessIrreflexive(name);
          }
          forall i | 0 <= i < n ensures b[..n][i].name != name {
            LessIrreflexive(name);
          }
          LookupMissing(a[..m], name);
          LookupMissing(b[..n], name);
        }
      }
      AscendingUnique(a[..m], b[..n]);
      assert a == a[..m] + [a[m]] && b == b[..n] + [b[n]];
    }
  }

  lemma LastNameAgrees(a: seq<Entry>, b: seq<Entry>)
    requires a != [] && Ascending(a) && Ascending(b) && forall name :: Lookup(a, name) == Lookup(b, name)
    ensures b != [] && a[|a| - 1].name == b[|b| - 1].name
  {
    var x := a[|a| - 1].name;
    LookupAt(a, |a| - 1);
    assert Lookup(a, x) == Lookup(b, x);
    LookupFound(b, x);
    var y := b[|b| - 1].name;
    LookupAt(b, |b| - 1);
    assert Lookup(a, y) == Lookup(b, y);
    LookupFound(a, y);
    NotAfterLast(b, x);
    NotAfterLast(a, y);
    if Less(x, y) && Less(y, x) {
      LessTransitive(x, y, x);
      LessIrreflexive(x);
    }
  }

  /** A present name is the last one or precedes it. */
  lemma NotAfterLast(entries: seq<Entry>, name: Units)
    requires Ascending(entries) && exists i :: 0 <= i < |entries| && entries[i].name == name
    ensures name == entries[|entries| - 1].name || Less(name, entries[|entries| - 1].name)
  {
    var i :| 0 <= i < |entries| && entries[i].name == name;
  }

  // ----- numbers -----

  function Unsigned(value: int, width: nat): int {
    if value < 0 then value + Span(width) else value
  }

  function Signed(value: nat, width: nat): int {
    if value < Span(width) / 2 then value else value - Span(width)
  }

  /** Two's complement at every width that is written. */
  lemma UnsignedMeans(value: int)
    ensures -0x80 <= value < 0x80 ==> Unsigned(value, 1) == value % 0x100
    ensures -0x8000 <= value < 0x8000 ==> Unsigned(value, 2) == value % 0x1_0000
    ensures -TWO_31 <= value < TWO_31 ==> Unsigned(value, 4) == value % TWO_32
    ensures -TWO_63 <= value < TWO_63 ==> Unsigned(value, 8) == value % TWO_64
  {
    hide Span;
    Widths();
  }

  lemma SignedUnsigned(value: int, width: nat)
    requires -(Span(width) / 2) <= value < Span(width) / 2 && Span(width) % 2 == 0
    ensures 0 <= Unsigned(value, width) < Span(width) && Signed(Unsigned(value, width), width) == value
  {
  }

  // ----- floats -----

  predicate IsNan32(bits: u32) {
    bits % 0x8000_0000 > 0x7f80_0000
  }

  predicate IsNan64(bits: u64) {
    bits % 0x8000_0000_0000_0000 > 0x7ff0_0000_0000_0000
  }

  /** All exponent bits set and some fraction bit, whatever the sign. */
  lemma Nan32Means(bits: u32)
    ensures IsNan32(bits) <==> bits / 0x80_0000 % 0x100 == 0xff && bits % 0x80_0000 != 0
  {
  }

  lemma Nan64Means(bits: u64)
    ensures IsNan64(bits) <==> bits / 0x10_0000_0000_0000 % 0x800 == 0x7ff && bits % 0x10_0000_0000_0000 != 0
  {
  }

  /** What writing keeps of a float: every NaN becomes the canonical one. */
  function Canon32(bits: u32): u32 {
    if IsNan32(bits) then 0x7fc0_0000 else bits
  }

  function Canon64(bits: u64): u64 {
    if IsNan64(bits) then 0x7ff8_0000_0000_0000 else bits
  }

  /** What reading keeps: negative zero becomes positive zero. */
  function ReadZero32(bits: u32): u32 {
    if bits == 0x8000_0000 then 0 else bits
  }

  function ReadZero64(bits: u64): u64 {
    if bits == 0x8000_0000_0000_0000 then 0 else bits
  }

  // ----- modified UTF-8 -----

  /** Section 4.4.7 of the JVM Specification: NUL takes two bytes, every unit at most three. */
  function UnitBytes(unit: u16): Bytes {
    if 1 <= unit <= 0x7f then [unit]
    else if unit <= 0x7ff then [0xc0 + unit / 64, 0x80 + unit % 64]
    else [0xe0 + unit / 4096, 0x80 + unit / 64 % 64, 0x80 + unit % 64]
  }

  /** One, two or three bytes carry 7, 11 or 16 bits; NUL takes two, so that no byte is ever zero. */
  lemma UnitBytesMean(unit: u16)
    ensures UnitBytes(0) == [0xc0, 0x80]
    ensures 0x0001 <= unit <= 0x007f ==> UnitBytes(unit) == [unit]
    ensures 0x0080 <= unit <= 0x07ff ==> UnitBytes(unit) == [0xc0 + unit / 0x40 % 0x20, 0x80 + unit % 0x40]
    ensures 0x0800 <= unit ==> UnitBytes(unit) == [0xe0 + unit / 0x1000 % 0x10, 0x80 + unit / 0x40 % 0x40, 0x80 + unit % 0x40]
    ensures 0 !in UnitBytes(unit)
  {
  }

  function Mutf8(units: Units): Bytes {
    if units == [] then [] else Mutf8(units[..|units| - 1]) + UnitBytes(units[|units| - 1])
  }

  function UnitWidth(unit: u16): nat {
    if 1 <= unit <= 0x7f then 1 else if unit <= 0x7ff then 2 else 3
  }

  lemma {:induction false} Mutf8Concat(a: Units, b: Units)
    ensures Mutf8(a + b) == Mutf8(a) + Mutf8(b)
  {
    hide UnitBytes;
    if b == [] {
      assert a + b == a;
    } else {
      Mutf8Concat(a, b[..|b| - 1]);
      assert (a + b)[..|a + b| - 1] == a + b[..|b| - 1];
    }
  }

  /** The encoded length, or refusal above sixteen bits; partial sums decide early. */
  method Mutf8Length(units: Units) returns (r: Result<nat, NbtError>)
    ensures r == if |Mutf8(units)| <= 0xffff then Ok(|Mutf8(units)|) else Err(StringTooLong)
  {
    hide Mutf8, UnitBytes;
    var length: nat := 0;
    EmptyUnits();
    for i := 0 to |units|
      invariant length == |Mutf8(units[..i])| <= 0xffff
    {
      Mutf8Step(units, i);
      length := length + UnitWidth(units[i]);
      if length > 0xffff {
        Mutf8Concat(units[..i + 1], units[i + 1..]);
        assert units == units[..i + 1] + units[i + 1..];
        return Err(StringTooLong);
      }
    }
    assert units[..|units|] == units;
    r := Ok(length);
  }

  lemma Mutf8Step(units: Units, i: nat)
    requires i < |units|
    ensures Mutf8(units[..i + 1]) == Mutf8(units[..i]) + UnitBytes(units[i]) && |UnitBytes(units[i])| == UnitWidth(units[i])
  {
    assert units[..i + 1][..i] == units[..i];
  }

  method WriteUnits(units: Units) returns (output: Bytes)
    ensures output == Mutf8(units)
  {
    output := [];
    for i := 0 to |units|
      invariant output == Mutf8(units[..i])
    {
      assert units[..i + 1][..i] == units[..i];
      output := output + UnitBytes(units[i]);
    }
    assert units[..|units|] == units;
  }

  /** Reads one unit; literal NUL and overlong forms are accepted, four-byte forms are not. */
  method ReadUnit(bytes: Bytes, start: nat, ghost want: u16) returns (r: Result<(u16, nat), NbtError>)
    requires start < |bytes|
    ensures r.Ok? ==> start < r.value.1 <= |bytes|
    ensures r.Err? ==> r == Err(InvalidModifiedUtf8)
    ensures UnitBytes(want) <= bytes[start..] ==> r == Ok((want, start + |UnitBytes(want)|))
  {
    var first := bytes[start];
    ghost var w := UnitBytes(want);
    ghost var tail := bytes[start..];
    assert first == tail[0];
    if first < 0x80 {
      return Ok((first, start + 1));
    }
    if first < 0xc0 || first > 0xef {
      return Err(InvalidModifiedUtf8);
    }
    var width := if first <= 0xdf then 2 else 3;
    var unit: nat := if width == 2 then first - 0xc0 else first - 0xe0;
    assert w <= tail && |w| >= 2 ==> |tail| >= 2 && w[1] == tail[1];
    if start + 1 >= |bytes| || bytes[start + 1] < 0x80 || bytes[start + 1] > 0xbf {
      return Err(InvalidModifiedUtf8);
    }
    assert tail[1] == bytes[start + 1];
    unit := unit * 64 + (bytes[start + 1] - 0x80);
    if width == 2 {
      return Ok((unit, start + 2));
    }
    assert w <= tail && |w| >= 3 ==> |tail| >= 3 && w[2] == tail[2];
    if start + 2 >= |bytes| || bytes[start + 2] < 0x80 || bytes[start + 2] > 0xbf {
      return Err(InvalidModifiedUtf8);
    }
    assert tail[2] == bytes[start + 2];
    unit := unit * 64 + (bytes[start + 2] - 0x80);
    r := Ok((unit, start + 3));
  }

  /** Every sequence of units comes back from its modified UTF-8. */
  method ReadUnits(bytes: Bytes, ghost want: Units) returns (r: Result<Units, NbtError>)
    ensures r.Err? ==> r == Err(InvalidModifiedUtf8)
    ensures bytes == Mutf8(want) ==> r == Ok(want)
    ensures r.Ok? ==> |r.value| <= |bytes|
  {
    hide Mutf8, UnitBytes;
    var units: Units, offset := [], 0;
    ghost var expected := bytes == Mutf8(want);
    EmptyUnits();
    if expected {
      assert want[0..] == want;
    }
    while offset < |bytes|
      invariant offset <= |bytes| && |units| <= offset
      invariant expected ==> |units| <= |want| && units == want[..|units|] && bytes[offset..] == Mutf8(want[|units|..])
      decreases |bytes| - offset
    {
      ghost var next: u16 := 0;
      if expected {
        NonemptyRest(want, |units|);
        UnitNonempty(want[|units|]);
        next := want[|units|];
        SplitFirst(want, |units|);
      }
      var read := ReadUnit(bytes, offset, next);
      if read.Err? {
        return Err(read.error);
      }
      if expected {
        assert bytes[read.value.1..] == bytes[offset..][|UnitBytes(next)|..];
      }
      units, offset := units + [read.value.0], read.value.1;
    }
    if expected && |units| < |want| {
      SplitFirst(want, |units|);
      UnitNonempty(want[|units|]);
      assert false;
    }
    assert expected ==> want[..|want|] == want;
    r := Ok(units);
  }

  lemma UnitNonempty(unit: u16)
    ensures |UnitBytes(unit)| >= 1
  {
  }

  lemma EmptyUnits()
    ensures Mutf8([]) == []
  {
  }

  lemma NonemptyRest(want: Units, n: nat)
    requires n <= |want| && Mutf8(want[n..]) != []
    ensures n < |want|
  {
  }

  lemma SplitFirst(want: Units, n: nat)
    requires n < |want|
    ensures Mutf8(want[n..]) == UnitBytes(want[n]) + Mutf8(want[n + 1..])
  {
    assert want[n..] == [want[n]] + want[n + 1..];
    Mutf8Concat([want[n]], want[n + 1..]);
    assert [want[n]][..0] == [];
  }
}
