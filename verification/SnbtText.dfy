/** The compact text of a tree in UTF-16, and what reading that text back gives. */
module SnbtText {
  import opened World
  import opened Nbt

  datatype SnbtError =
    | Syntax | NumberRange | InvalidEscape | InvalidCodePoint | InvalidCharacterName | ArrayElementType | UnknownOperation
    | ExpectedNumber | InvalidUuid | TrailingData | EmptyKey | TooDeep | InputLimit | InvalidLimits | OutputFull

  const QUOTE: u16 := 0x22
  const APOSTROPHE: u16 := 0x27
  const BACKSLASH: u16 := 0x5c
  const COMMA: u16 := 44
  const COLON: u16 := 58
  const SEMICOLON: u16 := 59
  const OPEN_BRACKET: u16 := 91
  const CLOSE_BRACKET: u16 := 93
  const OPEN_BRACE: u16 := 123
  const CLOSE_BRACE: u16 := 125

  // ----- numbers -----

  function Decimal(n: nat): (r: Units)
    ensures |r| >= 1
  {
    if n < 10 then [48 + n] else Decimal(n / 10) + [48 + n % 10]
  }

  function IntText(value: int): Units {
    if value < 0 then [45] + Decimal(-value) else Decimal(value)
  }

  predicate IsDigit(unit: u16) {
    48 <= unit <= 57
  }

  /** Decimal digits, without a leading zero unless the number is zero. */
  lemma {:induction false} DecimalDigits(n: nat)
    ensures forall i :: 0 <= i < |Decimal(n)| ==> IsDigit(Decimal(n)[i])
    ensures Decimal(n)[0] == 48 <==> n == 0
    ensures n == 0 ==> Decimal(n) == [48]
  {
    if n >= 10 {
      DecimalDigits(n / 10);
    }
  }

  // ----- strings -----

  /** The quote that needs no escape for the first quote inside, if any. */
  function QuoteFor(units: Units): u16 {
    if units == [] then QUOTE
    else if units[0] == QUOTE then APOSTROPHE
    else if units[0] == APOSTROPHE then QUOTE
    else QuoteFor(units[1..])
  }

  lemma {:induction false} QuoteIsQuote(units: Units)
    ensures QuoteFor(units) == QUOTE || QuoteFor(units) == APOSTROPHE
  {
    if units != [] {
      QuoteIsQuote(units[1..]);
    }
  }

  /** The first quote inside decides: the other kind is chosen, and the double quote if there is none. */
  lemma {:induction false} QuoteForMeans(units: Units)
    ensures forall i :: 0 <= i < |units| && units[i] in {0x22, 0x27} && (forall k :: 0 <= k < i ==> units[k] !in {0x22, 0x27}) ==>
              QuoteFor(units) == if units[i] == 0x22 then 0x27 else 0x22
    ensures (forall i :: 0 <= i < |units| ==> units[i] !in {0x22, 0x27}) ==> QuoteFor(units) == 0x22
  {
    if units != [] && units[0] !in {0x22, 0x27} {
      var rest := units[1..];
      QuoteForMeans(rest);
      forall i | 0 <= i < |units| && units[i] in {0x22, 0x27} && (forall k :: 0 <= k < i ==> units[k] !in {0x22, 0x27})
        ensures QuoteFor(units) == if units[i] == 0x22 then 0x27 else 0x22
      {
        assert rest[i - 1] == units[i] && forall k :: 0 <= k < i - 1 ==> rest[k] == units[k + 1];
      }
    }
  }

  function HexUnit(digit: nat): u16
    requires digit < 16
  {
    if digit < 10 then 48 + digit else 55 + digit
  }

  function Escaped(unit: u16, quote: u16): Units {
    if unit == 8 then [BACKSLASH, 98]
    else if unit == 9 then [BACKSLASH, 116]
    else if unit == 10 then [BACKSLASH, 110]
    else if unit == 12 then [BACKSLASH, 102]
    else if unit == 13 then [BACKSLASH, 114]
    else if unit < 32 then [BACKSLASH, 120, HexUnit(unit / 16), HexUnit(unit % 16)]
    else if unit == quote || unit == BACKSLASH then [BACKSLASH, unit]
    else [unit]
  }

  function Body(units: Units, quote: u16): Units {
    if units == [] then [] else Escaped(units[0], quote) + Body(units[1..], quote)
  }

  function QuotedText(units: Units): Units {
    [QuoteFor(units)] + Body(units, QuoteFor(units)) + [QuoteFor(units)]
  }

  lemma {:induction false} BodyAppend(units: Units, unit: u16, quote: u16)
    ensures Body(units + [unit], quote) == Body(units, quote) + Escaped(unit, quote)
  {
    hide Escaped;
    if units == [] {
      assert [unit][1..] == [];
    } else {
      BodyAppend(units[1..], unit, quote);
      assert (units + [unit])[1..] == units[1..] + [unit];
      Reassociate(Escaped(units[0], quote), Body(units[1..], quote), Escaped(unit, quote));
    }
  }

  lemma Reassociate(a: Units, b: Units, c: Units)
    ensures a + (b + c) == (a + b) + c
  {
  }

  // ----- keys -----

  predicate IsWordUnit(unit: u16) {
    65 <= unit <= 90 || 97 <= unit <= 122 || unit == 46 || unit == 95
  }

  predicate IsInnerUnit(unit: u16) {
    IsWordUnit(unit) || 48 <= unit <= 57 || unit == 43 || unit == 45
  }

  function Lower(unit: u16): u16 {
    if 65 <= unit <= 90 then unit + 32 else unit
  }

  predicate IsBoolean(units: Units) {
    (|units| == 4 && Lower(units[0]) == 116 && Lower(units[1]) == 114 && Lower(units[2]) == 117 && Lower(units[3]) == 101)
    || (|units| == 5 && Lower(units[0]) == 102 && Lower(units[1]) == 97 && Lower(units[2]) == 108 && Lower(units[3]) == 115 && Lower(units[4]) == 101)
  }

  /** A key that may stand without quotes. */
  predicate IsBare(name: Units) {
    name != [] && IsWordUnit(name[0]) && (forall i :: 0 < i < |name| ==> IsInnerUnit(name[i])) && !IsBoolean(name)
  }

  function KeyText(name: Units): Units {
    if IsBare(name) then name else QuotedText(name)
  }

  // ----- trees -----

  /** Numbers separated by commas, each with the suffix. */
  function NumbersText(values: seq<int>, suffix: Units): Units {
    if values == [] then []
    else IntText(values[0]) + suffix + if |values| == 1 then [] else [COMMA] + NumbersText(values[1..], suffix)
  }

  function TagText(tag: Tag): Units
    decreases tag, 0
  {
    match tag
    case End => [69, 78, 68]
    case ByteTag(v) => IntText(v) + [98]
    case ShortTag(v) => IntText(v) + [115]
    case IntTag(v) => IntText(v)
    case LongTag(v) => IntText(v) + [76]
    case FloatTag(_) => []
    case DoubleTag(_) => []
    case StringTag(units) => QuotedText(units)
    case ByteArray(v) => [OPEN_BRACKET, 66, SEMICOLON] + NumbersText(v, [66]) + [CLOSE_BRACKET]
    case IntArray(v) => [OPEN_BRACKET, 73, SEMICOLON] + NumbersText(v, []) + [CLOSE_BRACKET]
    case LongArray(v) => [OPEN_BRACKET, 76, SEMICOLON] + NumbersText(v, [76]) + [CLOSE_BRACKET]
    case ListTag(values) => [OPEN_BRACKET] + ValuesText(values) + [CLOSE_BRACKET]
    case CompoundTag(entries) => [OPEN_BRACE] + EntriesText(entries) + [CLOSE_BRACE]
  }

  function ValuesText(values: seq<Tag>): Units
    decreases values, 0
  {
    if values == [] then [] else TagText(values[0]) + if |values| == 1 then [] else [COMMA] + ValuesText(values[1..])
  }

  function EntriesText(entries: seq<Entry>): Units
    decreases entries, 0
  {
    if entries == [] then []
    else KeyText(entries[0].name) + [COLON] + TagText(entries[0].value) + if |entries| == 1 then [] else [COMMA] + EntriesText(entries[1..])
  }

  function Comma(first: bool): Units {
    if first then [] else [COMMA]
  }

  lemma {:induction false} NumbersAppend(values: seq<int>, v: int, suffix: Units)
    ensures NumbersText(values + [v], suffix) == NumbersText(values, suffix) + Comma(values == []) + (IntText(v) + suffix)
    decreases |values|
  {
    hide IntText;
    if values == [] {
      assert [v][1..] == [];
    } else {
      NumbersAppend(values[1..], v, suffix);
      assert (values + [v])[1..] == values[1..] + [v];
    }
  }

  lemma {:induction false} ValuesAppend(values: seq<Tag>, v: Tag)
    ensures ValuesText(values + [v]) == ValuesText(values) + Comma(values == []) + TagText(v)
    decreases |values|
  {
    hide TagText;
    if values == [] {
      assert [v][1..] == [];
    } else {
      ValuesAppend(values[1..], v);
      assert (values + [v])[1..] == values[1..] + [v];
    }
  }

  lemma {:induction false} EntriesAppend(entries: seq<Entry>, e: Entry)
    ensures EntriesText(entries + [e]) == EntriesText(entries) + Comma(entries == []) + (KeyText(e.name) + [COLON] + TagText(e.value))
    decreases |entries|
  {
    hide TagText, KeyText;
    if entries == [] {
      assert [e][1..] == [];
    } else {
      EntriesAppend(entries[1..], e);
      assert (entries + [e])[1..] == entries[1..] + [e];
    }
  }

  // ----- depth -----

  /** Containers nested; the reader counts a number array as one, the writer does not. */
  function Levels(tag: Tag, arrays: nat): nat
    decreases tag, 0
  {
    match tag
    case ListTag(values) => 1 + LevelsOf(values, arrays)
    case CompoundTag(entries) => 1 + LevelsIn(entries, arrays)
    case ByteArray(_) => arrays
    case IntArray(_) => arrays
    case LongArray(_) => arrays
    case _ => 0
  }

  function LevelsOf(values: seq<Tag>, arrays: nat): nat
    decreases values, 0
  {
    if values == [] then 0 else Most(Levels(values[0], arrays), LevelsOf(values[1..], arrays))
  }

  function LevelsIn(entries: seq<Entry>, arrays: nat): nat
    decreases entries, 0
  {
    if entries == [] then 0 else Most(Levels(entries[0].value, arrays), LevelsIn(entries[1..], arrays))
  }

  function Most(a: nat, b: nat): nat {
    if a < b then b else a
  }

  lemma {:induction false} LevelsOfChild(values: seq<Tag>, i: nat, arrays: nat)
    requires i < |values|
    ensures Levels(values[i], arrays) <= LevelsOf(values, arrays)
  {
    if i > 0 {
      LevelsOfChild(values[1..], i - 1, arrays);
    }
  }

  lemma {:induction false} LevelsInChild(entries: seq<Entry>, i: nat, arrays: nat)
    requires i < |entries|
    ensures Levels(entries[i].value, arrays) <= LevelsIn(entries, arrays)
  {
    if i > 0 {
      LevelsInChild(entries[1..], i - 1, arrays);
    }
  }

  // ----- reading back -----

  predicate NoFloats(tag: Tag)
    decreases tag
  {
    match tag
    case FloatTag(_) => false
    case DoubleTag(_) => false
    case ListTag(values) => forall v :: v in values ==> NoFloats(v)
    case CompoundTag(entries) => forall e :: e in entries ==> NoFloats(e.value)
    case _ => true
  }

  /** Reading the text of a tree with room for so many levels; End comes back as a word, an empty key is refused. */
  function ReadBack(tag: Tag, room: nat): Result<Tag, SnbtError>
    decreases tag, 0
  {
    match tag
    case End => Ok(StringTag([69, 78, 68]))
    case ListTag(values) =>
      if room == 0 then Err(TooDeep)
      else var read := ReadBackAll(values, room - 1); if read.Err? then Err(read.error) else Ok(ListTag(read.value))
    case CompoundTag(entries) =>
      if room == 0 then Err(TooDeep)
      else var read := ReadBackEntries(entries, room - 1); if read.Err? then Err(read.error) else Ok(CompoundTag(read.value))
    case ByteArray(_) => if room == 0 then Err(TooDeep) else Ok(tag)
    case IntArray(_) => if room == 0 then Err(TooDeep) else Ok(tag)
    case LongArray(_) => if room == 0 then Err(TooDeep) else Ok(tag)
    case _ => Ok(tag)
  }

  /** The first element that is refused decides. */
  function ReadBackAll(values: seq<Tag>, room: nat): (r: Result<seq<Tag>, SnbtError>)
    ensures r.Ok? ==> |r.value| == |values|
    decreases values, 0
  {
    if values == [] then Ok([])
    else
      var first := ReadBack(values[0], room);
      if first.Err? then Err(first.error)
      else var rest := ReadBackAll(values[1..], room); if rest.Err? then rest else Ok([first.value] + rest.value)
  }

  function ReadBackEntries(entries: seq<Entry>, room: nat): (r: Result<seq<Entry>, SnbtError>)
    ensures r.Ok? ==> |r.value| == |entries| && forall i :: 0 <= i < |entries| ==> r.value[i].name == entries[i].name
    decreases entries, 0
  {
    if entries == [] then Ok([])
    else
      var first := ReadBackEntry(entries[0], room);
      if first.Err? then Err(first.error)
      else var rest := ReadBackEntries(entries[1..], room); if rest.Err? then rest else Ok([first.value] + rest.value)
  }

  /** The value is read before an empty name is noticed. */
  function ReadBackEntry(e: Entry, room: nat): (r: Result<Entry, SnbtError>)
    ensures r.Ok? ==> r.value.name == e.name
    decreases e, 1
  {
    var value := ReadBack(e.value, room);
    if value.Err? then Err(value.error) else if e.name == [] then Err(EmptyKey) else Ok(Entry(e.name, value.value))
  }

  /** No End, and no empty key, anywhere. */
  predicate Clean(tag: Tag)
    decreases tag
  {
    match tag
    case End => false
    case ListTag(values) => forall v :: v in values ==> Clean(v)
    case CompoundTag(entries) => forall e :: e in entries ==> e.name != [] && Clean(e.value)
    case _ => true
  }

  /** A clean tree comes back exactly when there is room for it, and is too deep otherwise; no other tree comes back. */
  lemma {:induction false} ReadBackIsIdentity(tag: Tag, room: nat)
    ensures ReadBack(tag, room) == Ok(tag) <==> Clean(tag) && Levels(tag, 1) <= room
    ensures Clean(tag) && Levels(tag, 1) > room ==> ReadBack(tag, room) == Err(TooDeep)
    decreases tag, 0
  {
    hide ReadBackAll, ReadBackEntries, ReadBackEntry, LevelsOf, LevelsIn;
    match tag
    case ListTag(values) =>
      if room > 0 {
        ReadBackAllIsIdentity(values, room - 1);
      }
    case CompoundTag(entries) =>
      if room > 0 {
        ReadBackEntriesIsIdentity(entries, room - 1);
      }
    case _ =>
  }

  lemma {:induction false} ReadBackAllIsIdentity(values: seq<Tag>, room: nat)
    ensures ReadBackAll(values, room) == Ok(values) <==> (forall v :: v in values ==> Clean(v)) && LevelsOf(values, 1) <= room
    ensures (forall v :: v in values ==> Clean(v)) && LevelsOf(values, 1) > room ==> ReadBackAll(values, room) == Err(TooDeep)
    decreases values, 0
  {
    hide Clean, Levels, ReadBack;
    if values != [] {
      ReadBackIsIdentity(values[0], room);
      ReadBackAllIsIdentity(values[1..], room);
      assert values == [values[0]] + values[1..];
    }
  }

  lemma FirstIsClean(entries: seq<Entry>)
    requires entries != []
    ensures entries == [entries[0]] + entries[1..]
    ensures (forall e :: e in entries ==> e.name != [] && Clean(e.value))
            <==> entries[0].name != [] && Clean(entries[0].value) && forall e :: e in entries[1..] ==> e.name != [] && Clean(e.value)
  {
    hide Clean;
    assert entries == [entries[0]] + entries[1..];
  }

  lemma {:induction false} ReadBackEntriesIsIdentity(entries: seq<Entry>, room: nat)
    ensures ReadBackEntries(entries, room) == Ok(entries)
            <==> (forall e :: e in entries ==> e.name != [] && Clean(e.value)) && LevelsIn(entries, 1) <= room
    ensures (forall e :: e in entries ==> e.name != [] && Clean(e.value)) && LevelsIn(entries, 1) > room
            ==> ReadBackEntries(entries, room) == Err(TooDeep)
    decreases entries, 0
  {
    hide Clean, Levels, ReadBack;
    if entries != [] {
      ReadBackIsIdentity(entries[0].value, room);
      ReadBackEntriesIsIdentity(entries[1..], room);
      FirstIsClean(entries);
    }
  }

  // ----- what the text looks like -----

  /** The units of a text of ordinary letters. */
  function Ascii(text: string): (r: Units)
    requires forall i :: 0 <= i < |text| ==> ' ' <= text[i] <= '~'
    ensures |r| == |text| && forall i :: 0 <= i < |text| ==> r[i] == text[i] as int
  {
    seq(|text|, i requires 0 <= i < |text| => text[i] as int)
  }

  lemma NumberTexts()
    ensures TagText(ByteTag(5)) == Ascii("5b") && TagText(ByteTag(-128)) == Ascii("-128b")
    ensures TagText(ShortTag(10)) == Ascii("10s") && TagText(IntTag(0)) == Ascii("0") && TagText(LongTag(-7)) == Ascii("-7L")
  {
    assert Decimal(128) == Decimal(12) + [56] && Decimal(12) == Decimal(1) + [50] && Decimal(1) == [49];
    assert Decimal(10) == Decimal(1) + [48];
  }

  /** Number arrays name their type first; bytes and longs carry a capital suffix each. */
  lemma ArrayTexts(a: i8, b: i32, c: i32, d: i64)
    ensures TagText(ByteArray([])) == Ascii("[B;") + Ascii("]")
    ensures TagText(ByteArray([a])) == Ascii("[B;") + (IntText(a) + Ascii("B")) + Ascii("]")
    ensures TagText(IntArray([b, c])) == Ascii("[I;") + (IntText(b) + (Ascii(",") + IntText(c))) + Ascii("]")
    ensures TagText(LongArray([d])) == Ascii("[L;") + (IntText(d) + Ascii("L")) + Ascii("]")
  {
    ArrayMarks();
    hide IntText, Ascii;
    assert NumbersText([], [66]) == [];
    OneNumber(a, [66]);
    OneNumber(c, []);
    OneNumber(d, [76]);
    assert [b, c][1..] == [c];
    assert NumbersText([b, c], []) == IntText(b) + [] + ([COMMA] + NumbersText([c], []));
    assert IntText(b) + [] == IntText(b) && IntText(c) + [] == IntText(c);
  }

  lemma OneNumber(n: int, suffix: Units)
    ensures NumbersText([n], suffix) == IntText(n) + suffix
  {
    assert IntText(n) + suffix + [] == IntText(n) + suffix;
  }

  lemma ArrayMarks()
    ensures Ascii("[B;") == [OPEN_BRACKET, 66, SEMICOLON] && Ascii("[I;") == [OPEN_BRACKET, 73, SEMICOLON]
    ensures Ascii("[L;") == [OPEN_BRACKET, 76, SEMICOLON] && Ascii("]") == [CLOSE_BRACKET] && Ascii(",") == [COMMA]
    ensures Ascii("B") == [66] && Ascii("L") == [76]
  {
  }

  /** Elements and entries follow in order, with commas between and a colon after each key. */
  lemma TreeTexts(v: Tag, w: Tag)
    ensures TagText(ListTag([])) == Ascii("[]") && TagText(CompoundTag([])) == Ascii("{}")
    ensures TagText(ListTag([v, w])) == Ascii("[") + (TagText(v) + (Ascii(",") + TagText(w))) + Ascii("]")
    ensures TagText(CompoundTag([Entry(Ascii("a"), v), Entry(Ascii("b c"), w)])) ==
            Ascii("{") + (Ascii("a") + Ascii(":") + TagText(v) + (Ascii(",") + (Ascii("\"b c\"") + Ascii(":") + TagText(w)))) + Ascii("}")
  {
    hide KeyText, Ascii;
    Marks();
    KeyTexts();
    ListText(v, w);
    PairText(Entry(Ascii("a"), v), Entry(Ascii("b c"), w));
  }

  lemma Marks()
    ensures Ascii("[") == [OPEN_BRACKET] && Ascii("]") == [CLOSE_BRACKET] && Ascii("{") == [OPEN_BRACE] && Ascii("}") == [CLOSE_BRACE]
    ensures Ascii(",") == [COMMA] && Ascii(":") == [COLON] && Ascii("[]") == [OPEN_BRACKET, CLOSE_BRACKET] && Ascii("{}") == [OPEN_BRACE, CLOSE_BRACE]
  {
  }

  lemma KeyTexts()
    ensures KeyText(Ascii("a")) == Ascii("a") && KeyText(Ascii("b c")) == Ascii("\"b c\"")
  {
    var key := Ascii("b c");
    assert key == [98, 32, 99] && key[1..] == [32, 99] && key[1..][1..] == [99] && key[1..][1..][1..] == [];
    assert !IsInnerUnit(key[1]);
    assert QuoteFor(key) == QuoteFor([32, 99]) == QuoteFor([99]) == QuoteFor([]);
    assert Body(key, QUOTE) == [98] + Body([32, 99], QUOTE) && Body([32, 99], QUOTE) == [32] + Body([99], QUOTE);
    assert Body([99], QUOTE) == [99] + Body([], QUOTE);
  }

  lemma ListText(v: Tag, w: Tag)
    ensures TagText(ListTag([v, w])) == [OPEN_BRACKET] + (TagText(v) + ([COMMA] + TagText(w))) + [CLOSE_BRACKET]
  {
    assert [v, w][1..] == [w];
    assert ValuesText([v, w]) == TagText(v) + ([COMMA] + ValuesText([w]));
    assert ValuesText([w]) == TagText(w) + [];
  }

  lemma PairText(a: Entry, b: Entry)
    ensures TagText(CompoundTag([a, b])) ==
      [OPEN_BRACE] + (KeyText(a.name) + [COLON] + TagText(a.value) + ([COMMA] + (KeyText(b.name) + [COLON] + TagText(b.value)))) + [CLOSE_BRACE]
  {
    hide KeyText;
    assert [a, b][1..] == [b];
    assert EntriesText([a, b]) == KeyText(a.name) + [COLON] + TagText(a.value) + ([COMMA] + EntriesText([b]));
    assert EntriesText([b]) == KeyText(b.name) + [COLON] + TagText(b.value) + [];
  }

  /** A key stands without quotes if it starts with a letter, a dot or an underscore, goes on with those, digits and signs, and is no boolean word. */
  lemma BareMeans(name: Units)
    ensures KeyText(name) == name <==>
      && name != []
      && (65 <= name[0] <= 90 || 97 <= name[0] <= 122 || name[0] == 46 || name[0] == 95)
      && (forall i :: 0 < i < |name| ==> 48 <= name[i] <= 57 || 65 <= name[i] <= 90 || 97 <= name[i] <= 122 || name[i] in {43, 45, 46, 95})
      && !(|name| == 4 && name[0] in {84, 116} && name[1] in {82, 114} && name[2] in {85, 117} && name[3] in {69, 101})
      && !(|name| == 5 && name[0] in {70, 102} && name[1] in {65, 97} && name[2] in {76, 108} && name[3] in {83, 115} && name[4] in {69, 101})
  {
    if !IsBare(name) {
      QuoteIsQuote(name);
      BodyAsLong(name, QuoteFor(name));
      assert |QuotedText(name)| > |name|;
    }
  }

  lemma {:induction false} BodyAsLong(units: Units, quote: u16)
    ensures |Body(units, quote)| >= |units|
  {
    if units != [] {
      BodyAsLong(units[1..], quote);
    }
  }

  /** Control units are escaped, five by letter and the others by two hexadecimal digits; so are backslashes and the chosen quote. */
  lemma EscapedMeans(unit: u16, quote: u16)
    requires quote == QUOTE || quote == APOSTROPHE
    ensures Escaped(8, quote) == [92, 98] && Escaped(9, quote) == [92, 116] && Escaped(10, quote) == [92, 110]
    ensures Escaped(12, quote) == [92, 102] && Escaped(13, quote) == [92, 114] && Escaped(92, quote) == [92, 92]
    ensures Escaped(11, quote) == [92, 120, 48, 66] && Escaped(31, quote) == [92, 120, 49, 70]
    ensures unit < 32 && unit !in {8, 9, 10, 12, 13} ==> |Escaped(unit, quote)| == 4 && Escaped(unit, quote)[..2] == [92, 120]
    ensures unit >= 32 ==> Escaped(unit, quote) == if unit == quote || unit == 92 then [92, unit] else [unit]
  {
  }
}
