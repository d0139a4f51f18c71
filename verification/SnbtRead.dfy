/**
 The grammar half of the text parser. Whatever the writer prints is read back: as the tree
 itself unless the tree holds End or an empty key.
 */
module SnbtRead {
  import opened World
  import opened Nbt
  import opened NbtCompound
  import opened SnbtText
  import opened SnbtWrite
  import opened SnbtScan
  import NbtRead

  /** Conversions that are not part of this model: float values and the `uuid` operation. */
  datatype Conversions = Conversions(floats: Units -> Option<u32>, doubles: Units -> Option<u64>, uuid: Units -> Option<seq<i32>>)

  // ----- what is printed ahead -----

  /** A printed value lies ahead. */
  ghost predicate ValueAhead(input: Units, pos: nat, want: Tag, rest: Units) {
    Follows(input, pos, TagText(want) + rest) && Ends(rest) && NoFloats(want) && Canonical(want)
  }

  function SuffixOf(tag: Tag): Units {
    match tag
    case ByteTag(_) => [98]
    case ShortTag(_) => [115]
    case LongTag(_) => [76]
    case _ => []
  }

  function NumberOf(tag: Tag): int {
    match tag
    case ByteTag(v) => v
    case ShortTag(v) => v
    case IntTag(v) => v
    case LongTag(v) => v
    case _ => 0
  }

  function Magnitude(v: int): nat {
    if v < 0 then 0 - v else v
  }

  predicate IsInteger(tag: Tag) {
    tag.ByteTag? || tag.ShortTag? || tag.IntTag? || tag.LongTag?
  }

  lemma IntegerText(v: int, suffix: Units, rest: Units)
    ensures IntText(v) + suffix + rest == MinusSign(v < 0) + (Decimal(Magnitude(v)) + (suffix + rest))
  {
    hide Decimal;
  }

  /** The first unit of a printed value decides how it is read. */
  lemma FirstUnit(input: Units, pos: nat, want: Tag, rest: Units)
    requires ValueAhead(input, pos, want, rest)
    ensures SpaceEnd(input, pos) == pos < |input|
    ensures want.StringTag? ==> (input[pos] == QUOTE || input[pos] == APOSTROPHE) && Follows(input, pos, QuotedText(want.units) + rest)
    ensures want.CompoundTag? ==>
      input[pos] == OPEN_BRACE && Follows(input, pos + 1, EntriesText(want.entries) + ([CLOSE_BRACE] + rest))
    ensures want.ListTag? ==>
      input[pos] == OPEN_BRACKET && Follows(input, pos + 1, ValuesText(want.values) + ([CLOSE_BRACKET] + rest))
    ensures want.ByteArray? || want.IntArray? || want.LongArray? ==>
      input[pos] == OPEN_BRACKET && pos + 3 <= |input| && input[pos + 2] == SEMICOLON
      && input[pos + 1] == ArrayLetter(want) && Follows(input, pos + 3, NumbersText(ArrayValues(want), ArraySuffix(want)) + ([CLOSE_BRACKET] + rest))
    ensures IsInteger(want) ==>
      IsNumberStart(input[pos]) && PrintedNumber(input, pos, NumberOf(want) < 0, Magnitude(NumberOf(want)), SuffixOf(want), rest)
    ensures want.End? ==> input[pos] == 69 && Follows(input, pos, [69, 78, 68] + rest)
  {
    hide IntText, Decimal, NumbersText, ValuesText, EntriesText, Body, QuoteFor, Follows;
    var text := TagText(want);
    match want
    case StringTag(units) =>
      QuotedAhead(input, pos, units, rest);
    case CompoundTag(entries) =>
      Opened(input, pos, OPEN_BRACE, EntriesText(entries), [CLOSE_BRACE], rest);
    case ListTag(values) =>
      Opened(input, pos, OPEN_BRACKET, ValuesText(values), [CLOSE_BRACKET], rest);
    case ByteArray(_) => ArrayOpened(input, pos, want, rest);
    case IntArray(_) => ArrayOpened(input, pos, want, rest);
    case LongArray(_) => ArrayOpened(input, pos, want, rest);
    case End => Advance(input, pos, [69, 78, 68], rest);
    case _ =>
      IntegerText(NumberOf(want), SuffixOf(want), rest);
      IntegerShape(want);
      NumberHead(input, pos, NumberOf(want) < 0, Magnitude(NumberOf(want)), SuffixOf(want), rest);
  }

  lemma IntegerShape(tag: Tag)
    requires IsInteger(tag)
    ensures TagText(tag) == IntText(NumberOf(tag)) + SuffixOf(tag) && IsSuffix(SuffixOf(tag))
  {
    hide IntText;
  }

  lemma NumberHead(input: Units, pos: nat, negative: bool, n: nat, suffix: Units, rest: Units)
    requires PrintedNumber(input, pos, negative, n, suffix, rest)
    ensures SpaceEnd(input, pos) == pos < |input| && IsNumberStart(input[pos])
  {
    hide Decimal;
    NumberAhead(input, pos, negative, n, suffix, rest);
    DecimalDigits(n);
    if !negative {
      assert input[pos] == input[pos..pos + |Decimal(n)|][0];
    }
  }

  lemma Opened(input: Units, pos: nat, open: u16, text: Units, close: Units, rest: Units)
    requires Follows(input, pos, [open] + text + close + rest) && !IsWhite(open)
    ensures SpaceEnd(input, pos) == pos < |input| && input[pos] == open && Follows(input, pos + 1, text + (close + rest))
  {
    assert [open] + text + close + rest == [open] + (text + (close + rest));
    Advance(input, pos, [open], text + (close + rest));
  }

  function ArrayLetter(tag: Tag): u16 {
    if tag.ByteArray? then 66 else if tag.IntArray? then 73 else 76
  }

  function ArraySuffix(tag: Tag): Units {
    if tag.ByteArray? then [66] else if tag.IntArray? then [] else [76]
  }

  function ArrayWidth(tag: Tag): nat {
    if tag.ByteArray? then 8 else if tag.IntArray? then 32 else 64
  }

  function ArrayValues(tag: Tag): seq<int> {
    match tag
    case ByteArray(v) => v
    case IntArray(v) => v
    case LongArray(v) => v
    case _ => []
  }

  lemma ArrayOpened(input: Units, pos: nat, want: Tag, rest: Units)
    requires (want.ByteArray? || want.IntArray? || want.LongArray?) && Follows(input, pos, TagText(want) + rest)
    ensures pos + 3 <= |input| && SpaceEnd(input, pos) == pos && input[pos] == OPEN_BRACKET && input[pos + 1] == ArrayLetter(want)
    ensures input[pos + 2] == SEMICOLON
    ensures Follows(input, pos + 3, NumbersText(ArrayValues(want), ArraySuffix(want)) + ([CLOSE_BRACKET] + rest))
  {
    hide NumbersText;
    var head := [OPEN_BRACKET, ArrayLetter(want), SEMICOLON];
    var body := NumbersText(ArrayValues(want), ArraySuffix(want)) + ([CLOSE_BRACKET] + rest);
    assert TagText(want) + rest == head + body;
    Advance(input, pos, head, body);
    assert input[pos + 1] == input[pos..pos + 3][1] && input[pos + 2] == input[pos..pos + 3][2];
  }

  // ----- numbers -----

  function Sized(width: nat, value: int): (r: Tag)
    requires width in {8, 16, 32, 64} && -Half(width) <= value < Half(width)
    ensures IsInteger(r) && Canonical(r)
  {
    if width == 8 then ByteTag(value) else if width == 16 then ShortTag(value) else if width == 64 then LongTag(value) else IntTag(value)
  }

  lemma SizedBack(want: Tag)
    ensures IsInteger(want) ==>
      var width := if WidthOf(SuffixOf(want)).Some? then WidthOf(SuffixOf(want)).value else 32;
      && width in {8, 16, 32, 64} && -Half(width) <= NumberOf(want) < Half(width) && Sized(width, NumberOf(want)) == want
      && Magnitude(NumberOf(want)) <= Half(width) - (if NumberOf(want) < 0 then 0 else 1)
      && NumberOf(want) == if NumberOf(want) < 0 then 0 - Magnitude(NumberOf(want)) else Magnitude(NumberOf(want))
  {
  }

  /** A finite value, with positive zero; anything else is out of range. */
  function Converted(o: Conversions, float: FloatText): (r: Result<Tag, SnbtError>)
    ensures r.Ok? ==> Canonical(r.value)
  {
    if float.single then
      var value := o.floats(float.text);
      if value.None? then Err(NumberRange) else Ok(FloatTag(ReadZero32(value.value)))
    else
      var value := o.doubles(float.text);
      if value.None? then Err(NumberRange) else Ok(DoubleTag(ReadZero64(value.value)))
  }

  /** A number: a float if it scans as one, else an integer, else perhaps a word. */
  method Number(p: Scanner, o: Conversions, depth: nat, ghost want: Tag, ghost rest: Units) returns (r: Result<Tag, SnbtError>)
    requires p.Valid() && depth <= p.limits.maxDepth
    modifies p`pos
    ensures p.Valid() && p.pos >= old(p.pos) && (r.Ok? ==> p.pos > old(p.pos) && Canonical(r.value))
    ensures IsInteger(want) && PrintedNumber(p.input, old(p.pos), NumberOf(want) < 0, Magnitude(NumberOf(want)), SuffixOf(want), rest) ==>
      r == Ok(want) && Follows(p.input, p.pos, rest)
    decreases |p.input| - p.pos, 1
  {
    hide Follows, PrintedNumber, Decimal, Fold, Canonical;
    ghost var minus, n, suffix := NumberOf(want) < 0, Magnitude(NumberOf(want)), SuffixOf(want);
    var start := p.pos;
    var float := p.Float(minus, n, suffix, rest);
    if float.Ok? {
      r := Converted(o, float.value);
      return;
    }
    p.pos := start;
    var literal := p.Integer(minus, n, suffix, rest);
    if literal.Err? {
      p.pos := start;
      r := WordValue(p, o, depth, rest);
      return;
    }
    var width := if literal.value.width.Some? then literal.value.width.value else 32;
    SizedBack(want);
    var value := p.IntegerValue(literal.value, width, n);
    if value.Err? {
      return Err(value.error);
    }
    r := Ok(Sized(width, value.value));
  }

  // ----- words and operations -----

  /** Whether a failure ends parsing for good, instead of rewinding an optional suffix. */
  predicate IsResource(error: SnbtError) {
    error == TooDeep || error == InputLimit
  }

  predicate IsAnyCase(units: Units, word: Units) {
    |units| == |word| && forall i :: 0 <= i < |units| ==> Lower(units[i]) == word[i]
  }

  /** Truth of a number; nothing else has one. */
  function Truth(tag: Tag): Option<bool> {
    match tag
    case ByteTag(v) => Some(v != 0)
    case ShortTag(v) => Some(v != 0)
    case IntTag(v) => Some(v != 0)
    case LongTag(v) => Some(v != 0)
    case FloatTag(bits) => Some(ReadZero32(bits) != 0)
    case DoubleTag(bits) => Some(ReadZero64(bits) != 0)
    case _ => None
  }

  /** A word: a boolean, an operation with arguments, or a string. The printed End is a string. */
  method WordValue(p: Scanner, o: Conversions, depth: nat, ghost rest: Units) returns (r: Result<Tag, SnbtError>)
    requires p.Valid() && depth <= p.limits.maxDepth
    modifies p`pos
    ensures p.Valid() && p.pos >= old(p.pos) && (r.Ok? ==> p.pos > old(p.pos) && Canonical(r.value))
    ensures Follows(p.input, old(p.pos), [69, 78, 68] + rest) && Ends(rest) ==> r == Ok(StringTag([69, 78, 68])) && Follows(p.input, p.pos, rest)
    decreases |p.input| - p.pos, 0
  {
    hide Follows, Canonical, IsUnquoted, IsWhite;
    if Follows(p.input, p.pos, [69, 78, 68] + rest) && Ends(rest) {
      EndAhead(p.input, p.pos, rest);
    }
    var word := p.Word();
    if word.Err? {
      return Err(word.error);
    }
    var start, end := word.value.0, word.value.1;
    var name := p.input[start..end];
    var invalidStart := IsNumberStart(p.input[start]);
    var called := p.Eat(40);
    if called {
      if depth >= p.limits.maxDepth {
        return Err(TooDeep);
      }
      var arguments, failure := Arguments(p, o, depth + 1);
      if failure.Some? {
        if IsResource(failure.value) {
          return Err(failure.value);
        }
        p.pos := end;
      }
      if invalidStart {
        return Err(Syntax);
      }
      r := Operation(o, name, arguments);
      return;
    }
    p.pos := end;
    if invalidStart {
      return Err(Syntax);
    }
    r := Ok(WordTag(name));
  }

  function WordTag(name: Units): (r: Tag)
    ensures Canonical(r)
    ensures name == [69, 78, 68] ==> r == StringTag(name)
  {
    if IsAnyCase(name, [116, 114, 117, 101]) then ByteTag(1)
    else if IsAnyCase(name, [102, 97, 108, 115, 101]) then ByteTag(0)
    else StringTag(name)
  }

  lemma EndAhead(input: Units, pos: nat, rest: Units)
    requires Follows(input, pos, [69, 78, 68] + rest) && Ends(rest)
    ensures SpaceEnd(input, pos) == pos && WordEnd(input, pos) == pos + 3 && input[pos..pos + 3] == [69, 78, 68]
    ensures SpaceEnd(input, pos + 3) == pos + 3 && (pos + 3 < |input| ==> input[pos + 3] != 40)
    ensures Follows(input, pos + 3, rest) && input[pos] == 69
  {
    WordRunEnds(input, pos, [69, 78, 68], rest);
    Advance(input, pos, [69, 78, 68], rest);
    Head(input, pos + 3, rest);
  }

  /** One argument, and a known name. */
  method Operation(o: Conversions, name: Units, arguments: seq<Tag>) returns (r: Result<Tag, SnbtError>)
    ensures r.Ok? ==> Canonical(r.value)
    ensures |arguments| != 1 ==> r == Err(UnknownOperation)
  {
    if |arguments| != 1 {
      return Err(UnknownOperation);
    }
    if name == [98, 111, 111, 108] {
      var truth := Truth(arguments[0]);
      return if truth.None? then Err(ExpectedNumber) else Ok(ByteTag(if truth.value then 1 else 0));
    }
    if name == [117, 117, 105, 100] {
      if !arguments[0].StringTag? {
        return Err(InvalidUuid);
      }
      var words := o.uuid(arguments[0].units);
      return if words.None? then Err(InvalidUuid) else Ok(IntArray(words.value));
    }
    r := Err(UnknownOperation);
  }

  /** Arguments up to the closing parenthesis; those parsed before a failure are kept. */
  method Arguments(p: Scanner, o: Conversions, depth: nat) returns (arguments: seq<Tag>, failure: Option<SnbtError>)
    requires p.Valid() && depth <= p.limits.maxDepth
    modifies p`pos
    ensures p.Valid() && p.pos >= old(p.pos)
    decreases |p.input| - p.pos, 4
  {
    hide ValueAhead, Canonical;
    arguments := [];
    var closed := p.Eat(41);
    if closed {
      return arguments, None;
    }
    while true
      invariant p.Valid() && p.pos >= old(p.pos)
      decreases |p.input| - p.pos
    {
      var value := Value(p, o, depth, End, []);
      if value.Err? {
        return arguments, Some(value.error);
      }
      arguments := arguments + [value.value];
      closed := p.Eat(41);
      if closed {
        return arguments, None;
      }
      var comma := p.Eat(44);
      if !comma {
        var end := p.Expect(41);
        return arguments, if end.Err? then Some(end.error) else None;
      }
      closed := p.Eat(41);
      if closed {
        return arguments, None;
      }
    }
  }

  // ----- values -----

  /** Any value; a printed one is read as `ReadBack` says and leaves what follows it. */
  method Value(p: Scanner, o: Conversions, depth: nat, ghost want: Tag, ghost rest: Units) returns (r: Result<Tag, SnbtError>)
    requires p.Valid() && depth <= p.limits.maxDepth
    modifies p`pos
    ensures p.Valid() && p.pos >= old(p.pos) && (r.Ok? ==> p.pos > old(p.pos) && Canonical(r.value))
    ensures ValueAhead(p.input, old(p.pos), want, rest) ==> r == ReadBack(want, p.limits.maxDepth - depth) && (r.Ok? ==> Follows(p.input, p.pos, rest))
    decreases |p.input| - p.pos, 3
  {
    hide Follows, Canonical, PrintedNumber, TagText, QuotedText, ValuesText, EntriesText, NumbersText, IsWhite;
    ghost var printed := ValueAhead(p.input, p.pos, want, rest);
    if printed {
      FirstUnit(p.input, p.pos, want, rest);
      if want.CompoundTag? {
        CompoundReady(p.input, p.pos, want, rest);
      }
    }
    p.Space();
    if p.pos < |p.input| && (p.input[p.pos] == 34 || p.input[p.pos] == 39) {
      var units := p.Quoted(if want.StringTag? then want.units else [], rest);
      r := if units.Err? then Err(units.error) else Ok(StringTag(units.value));
      StringCanonical(if units.Ok? then units.value else []);
    } else if p.pos < |p.input| && p.input[p.pos] == 123 {
      r := Compound(p, o, depth, if want.CompoundTag? then want.entries else [], rest);
    } else if p.pos < |p.input| && p.input[p.pos] == 91 {
      r := List(p, o, depth, want, rest);
    } else if p.pos < |p.input| && IsNumberStart(p.input[p.pos]) {
      r := Number(p, o, depth, want, rest);
    } else {
      r := WordValue(p, o, depth, rest);
    }
  }

  lemma CompoundReady(input: Units, pos: nat, want: Tag, rest: Units)
    requires ValueAhead(input, pos, want, rest) && want.CompoundTag?
    requires Follows(input, pos + 1, EntriesText(want.entries) + ([CLOSE_BRACE] + rest))
    ensures EntriesAhead(input, pos + 1, want.entries, 0, rest) && Ascending(want.entries)
  {
    hide Follows, EntriesText, Ascending, LevelsIn;
    assert want.entries[0..] == want.entries;
  }

  lemma StringCanonical(units: Units)
    ensures Canonical(StringTag(units))
  {
  }

  // ----- compounds -----

  /** The entries of a printed compound from the `k`th on, then its closing brace. */
  ghost predicate EntriesAhead(input: Units, pos: nat, want: seq<Entry>, k: nat, rest: Units) {
    && k <= |want| && Follows(input, pos, EntriesText(want[k..]) + ([CLOSE_BRACE] + rest)) && Ends(rest)
    && (forall e :: e in want ==> NoFloats(e.value) && Canonical(e.value))
  }

  /** What follows the `k`th entry. */
  ghost function EntryTail(want: seq<Entry>, k: nat, rest: Units): Units
    requires k < |want|
  {
    if k + 1 == |want| then [CLOSE_BRACE] + rest else [COMMA] + (EntriesText(want[k + 1..]) + ([CLOSE_BRACE] + rest))
  }

  /** One printed entry, and what follows it. */
  ghost predicate EntryAhead(input: Units, pos: nat, e: Entry, tail: Units) {
    && Follows(input, pos, KeyText(e.name) + ([COLON] + (TagText(e.value) + tail))) && Ends(tail)
    && NoFloats(e.value) && Canonical(e.value)
  }

  lemma EntriesSplit(want: seq<Entry>, k: nat, rest: Units)
    requires k < |want|
    ensures EntriesText(want[k..]) + ([CLOSE_BRACE] + rest)
            == KeyText(want[k].name) + ([COLON] + (TagText(want[k].value) + EntryTail(want, k, rest)))
  {
    hide TagText, KeyText, EntriesText;
    var more := if k + 1 == |want| then [] else [COMMA] + EntriesText(want[k + 1..]);
    FirstEntry(want, k, more);
    Regroup(KeyText(want[k].name), [COLON], TagText(want[k].value), more, [CLOSE_BRACE] + rest);
    if k + 1 == |want| {
      assert more + ([CLOSE_BRACE] + rest) == [CLOSE_BRACE] + rest;
    } else {
      Group([COMMA], EntriesText(want[k + 1..]), [CLOSE_BRACE] + rest);
    }
  }

  lemma FirstEntry(want: seq<Entry>, k: nat, more: Units)
    requires k < |want| && more == if k + 1 == |want| then [] else [COMMA] + EntriesText(want[k + 1..])
    ensures EntriesText(want[k..]) == KeyText(want[k].name) + [COLON] + TagText(want[k].value) + more
  {
    hide TagText, KeyText;
    assert want[k..][1..] == want[k + 1..];
  }

  lemma Group(a: Units, b: Units, c: Units)
    ensures (a + b) + c == a + (b + c)
  {
  }

  lemma Regroup(a: Units, b: Units, c: Units, d: Units, e: Units)
    ensures a + b + c + d + e == a + (b + (c + (d + e)))
  {
  }

  lemma EntriesStep(input: Units, pos: nat, want: seq<Entry>, k: nat, rest: Units)
    requires EntriesAhead(input, pos, want, k, rest) && k < |want|
    ensures EntryAhead(input, pos, want[k], EntryTail(want, k, rest))
  {
    hide TagText, KeyText, Levels, NoFloats, Canonical, Follows, LevelsIn;
    EntriesSplit(want, k, rest);
  }

  /** After an entry comes the closing brace, or a comma and the next entry. */
  lemma AfterEntry(input: Units, pos: nat, want: seq<Entry>, k: nat, rest: Units, before: nat)
    requires k < |want| && Follows(input, pos, EntryTail(want, k, rest)) && EntriesAhead(input, before, want, k, rest)
    ensures SpaceEnd(input, pos) == pos < |input| && input[pos] == (if k + 1 == |want| then CLOSE_BRACE else COMMA)
    ensures k + 1 == |want| ==> Follows(input, pos + 1, rest)
    ensures k + 1 < |want| ==> EntriesAhead(input, pos + 1, want, k + 1, rest)
    ensures k + 1 < |want| ==> SpaceEnd(input, pos + 1) == pos + 1 < |input| && input[pos + 1] != CLOSE_BRACE
  {
    hide TagText, Levels, NoFloats, Canonical, EntriesText;
    if k + 1 == |want| {
      Advance(input, pos, [CLOSE_BRACE], rest);
    } else {
      Advance(input, pos, [COMMA], EntriesText(want[k + 1..]) + ([CLOSE_BRACE] + rest));
      EntriesHead(input, pos + 1, want[k + 1..], [CLOSE_BRACE] + rest);
    }
  }

  lemma EntriesHead(input: Units, pos: nat, entries: seq<Entry>, tail: Units)
    requires entries != [] && Follows(input, pos, EntriesText(entries) + tail)
    ensures SpaceEnd(input, pos) == pos < |input| && input[pos] != CLOSE_BRACE
  {
    hide TagText, KeyText, Follows;
    var e := entries[0];
    var body := [COLON] + TagText(e.value) + if |entries| == 1 then [] else [COMMA] + EntriesText(entries[1..]);
    assert EntriesText(entries) == KeyText(e.name) + body;
    var more := body + tail;
    assert EntriesText(entries) + tail == KeyText(e.name) + more;
    KeyHead(input, pos, e.name, more);
  }

  /** A printed key starts with a quote, or with a letter, dot or underscore. */
  lemma KeyHead(input: Units, pos: nat, name: Units, more: Units)
    requires Follows(input, pos, KeyText(name) + more)
    ensures pos < |input| && SpaceEnd(input, pos) == pos && input[pos] != CLOSE_BRACE
    ensures IsBare(name) ==> input[pos] == name[0] && IsWordUnit(input[pos]) && input[pos] != 34 && input[pos] != 39
    ensures !IsBare(name) ==> (input[pos] == 34 || input[pos] == 39) && Follows(input, pos, QuotedText(name) + more)
  {
    hide Body, QuoteFor;
    QuoteIsQuote(name);
    Advance(input, pos, KeyText(name), more);
  }

  /** A printed key, read up to its colon. */
  method KeyName(p: Scanner, ghost want: Units, ghost more: Units) returns (r: Result<Units, SnbtError>)
    requires p.Valid()
    modifies p`pos
    ensures p.Valid() && p.pos >= old(p.pos)
    ensures Follows(p.input, old(p.pos), KeyText(want) + ([COLON] + more)) ==> r == Ok(want) && Follows(p.input, p.pos, [COLON] + more)
  {
    hide Follows, KeyText, QuotedText, IsWhite;
    ghost var printed := Follows(p.input, p.pos, KeyText(want) + ([COLON] + more));
    if printed {
      KeyHead(p.input, p.pos, want, [COLON] + more);
      if IsBare(want) {
        BareKey(p.input, p.pos, want, more);
      }
    }
    p.Space();
    if p.pos < |p.input| && (p.input[p.pos] == 34 || p.input[p.pos] == 39) {
      r := p.Quoted(want, [COLON] + more);
    } else {
      var word := p.Word();
      r := if word.Err? then Err(word.error) else Ok(p.input[word.value.0..word.value.1]);
    }
  }

  lemma BareKey(input: Units, pos: nat, name: Units, more: Units)
    requires IsBare(name) && Follows(input, pos, KeyText(name) + ([COLON] + more))
    ensures pos + |name| <= |input| && WordEnd(input, pos) == pos + |name| > pos && input[pos..pos + |name|] == name
    ensures Follows(input, pos + |name|, [COLON] + more)
  {
    WordRunEnds(input, pos, name, [COLON] + more);
    Advance(input, pos, name, [COLON] + more);
  }

  /** Name, colon, value; an empty name is refused once its value is read. */
  method ReadEntry(p: Scanner, o: Conversions, depth: nat, ghost want: Entry, ghost tail: Units) returns (r: Result<Entry, SnbtError>)
    requires p.Valid() && depth <= p.limits.maxDepth
    modifies p`pos
    ensures p.Valid() && p.pos >= old(p.pos) && (r.Ok? ==> p.pos > old(p.pos) && Canonical(r.value.value))
    ensures EntryAhead(p.input, old(p.pos), want, tail) ==>
      && r == ReadBackEntry(want, p.limits.maxDepth - depth) && (r.Ok? ==> Follows(p.input, p.pos, tail))
    decreases |p.input| - p.pos, 4
  {
    hide Follows, KeyText, TagText, Levels, NoFloats, Canonical, IsWhite;
    ghost var printed := EntryAhead(p.input, p.pos, want, tail);
    var name := KeyName(p, want.name, TagText(want.value) + tail);
    if name.Err? {
      return Err(name.error);
    }
    if printed {
      ColonAhead(p.input, p.pos, TagText(want.value) + tail);
    }
    var colon := p.Expect(COLON);
    if colon.Err? {
      return Err(colon.error);
    }
    var value := Value(p, o, depth, want.value, tail);
    if value.Err? {
      return Err(value.error);
    }
    if name.value == [] {
      return Err(EmptyKey);
    }
    r := Ok(Entry(name.value, value.value));
  }

  lemma ColonAhead(input: Units, pos: nat, more: Units)
    requires Follows(input, pos, [COLON] + more)
    ensures SpaceEnd(input, pos) == pos < |input| && input[pos] == COLON && Follows(input, pos + 1, more)
  {
    Advance(input, pos, [COLON], more);
  }

  method Compound(p: Scanner, o: Conversions, depth: nat, ghost want: seq<Entry>, ghost rest: Units) returns (r: Result<Tag, SnbtError>)
    requires p.Valid() && p.pos < |p.input| && depth <= p.limits.maxDepth
    modifies p`pos
    ensures p.Valid() && p.pos >= old(p.pos) && (r.Ok? ==> p.pos > old(p.pos) && Canonical(r.value))
    ensures EntriesAhead(p.input, old(p.pos) + 1, want, 0, rest) && Ascending(want) ==>
      r == ReadBack(CompoundTag(want), p.limits.maxDepth - depth) && (r.Ok? ==> Follows(p.input, p.pos, rest))
    decreases |p.input| - p.pos, 2
  {
    hide *;
    ghost var printed := EntriesAhead(p.input, p.pos + 1, want, 0, rest) && Ascending(want);
    if printed {
      CompoundOpens(p.input, p.pos + 1, want, rest, p.limits.maxDepth - depth);
    }
    if depth >= p.limits.maxDepth {
      return Err(TooDeep);
    }
    ghost var start := p.pos;
    p.pos := p.pos + 1;
    ValidAt(p);
    var closed := p.Eat(CLOSE_BRACE);
    if closed {
      AfterSpace(p.input, start + 1);
      NoEntriesCanonical();
      return Ok(CompoundTag([]));
    }
    var read := Entries(p, o, depth + 1, want, rest);
    if read.Err? {
      return Err(read.error);
    }
    var entries := FromEntries(read.value);
    NbtRead.LookedUpCanonical(read.value, entries);
    if printed {
      ReadBackKeepsOrder(want, p.limits.maxDepth - depth - 1);
    }
    r := Ok(CompoundTag(entries));
  }

  lemma ValidAt(p: Scanner)
    requires p.pos <= |p.input|
    ensures p.Valid()
  {
  }

  lemma InBounds(p: Scanner)
    requires p.Valid()
    ensures p.pos <= |p.input|
  {
  }

  lemma AfterSpace(input: Units, pos: nat)
    requires pos <= |input|
    ensures SpaceEnd(input, pos) >= pos
  {
  }

  lemma NoEntriesCanonical()
    ensures Canonical(CompoundTag([])) && Canonical(ListTag([]))
  {
  }

  /** A printed compound closes at once exactly when it has no entries. */
  lemma CompoundOpens(input: Units, pos: nat, want: seq<Entry>, rest: Units, room: nat)
    requires EntriesAhead(input, pos, want, 0, rest) && Ascending(want)
    ensures SpaceEnd(input, pos) == pos < |input|
    ensures want == [] <==> input[pos] == CLOSE_BRACE
    ensures want == [] ==> Follows(input, pos + 1, rest) && (room > 0 ==> ReadBack(CompoundTag(want), room) == Ok(CompoundTag([])))
    ensures ReadBack(CompoundTag(want), room) ==
      if room == 0 then Err(TooDeep)
      else var read := ReadBackEntries(want, room - 1); if read.Err? then Err(read.error) else Ok(CompoundTag(read.value))
  {
    hide TagText, KeyText, Levels, NoFloats, Canonical, Ascending, Follows;
    assert want[0..] == want;
    if want == [] {
      assert EntriesText(want) + ([CLOSE_BRACE] + rest) == [CLOSE_BRACE] + rest;
      Advance(input, pos, [CLOSE_BRACE], rest);
    } else {
      EntriesHead(input, pos, want, [CLOSE_BRACE] + rest);
    }
  }

  lemma ReadBackKeepsOrder(want: seq<Entry>, room: nat)
    requires Ascending(want)
    ensures ReadBackEntries(want, room).Ok? ==> Ascending(ReadBackEntries(want, room).value)
  {
  }

  /** Reading one more entry extends what was read back, or decides the whole. */
  lemma ReadBackNext(want: seq<Entry>, k: nat, room: nat)
    requires k < |want| && ReadBackEntries(want[..k], room).Ok?
    ensures var before, next := ReadBackEntries(want[..k], room), ReadBackEntry(want[k], room);
      && (next.Ok? ==> ReadBackEntries(want[..k + 1], room) == Ok(before.value + [next.value]))
      && (next.Err? ==> ReadBackEntries(want, room) == Err(next.error))
  {
    hide ReadBackEntry, ReadBackEntries;
    assert want[..k + 1] == want[..k] + [want[k]];
    ReadBackAppend(want[..k], want[k], room);
    if ReadBackEntry(want[k], room).Err? {
      assert want == want[..k + 1] + want[k + 1..];
      ErrSpreads(want[..k + 1], want[k + 1..], room);
    }
  }

  lemma {:induction false} ReadBackAppend(entries: seq<Entry>, e: Entry, room: nat)
    requires ReadBackEntries(entries, room).Ok?
    ensures var next := ReadBackEntry(e, room);
      ReadBackEntries(entries + [e], room) ==
        if next.Err? then Err(next.error) else Ok(ReadBackEntries(entries, room).value + [next.value])
  {
    hide ReadBackEntry;
    if entries == [] {
      assert entries + [e] == [e] && [e][1..] == [];
      assert ReadBackEntries([], room) == Ok([]);
      var last: seq<Entry> := if ReadBackEntry(e, room).Ok? then [ReadBackEntry(e, room).value] else [];
      assert last + [] == [] + last;
    } else {
      ReadBackAppend(entries[1..], e, room);
      assert (entries + [e])[1..] == entries[1..] + [e];
      var head, rest := [ReadBackEntry(entries[0], room).value], ReadBackEntries(entries[1..], room).value;
      if ReadBackEntry(e, room).Ok? {
        assert head + (rest + [ReadBackEntry(e, room).value]) == head + rest + [ReadBackEntry(e, room).value];
      }
    }
  }

  lemma {:induction false} ErrSpreads(a: seq<Entry>, b: seq<Entry>, room: nat)
    requires ReadBackEntries(a, room).Err?
    ensures ReadBackEntries(a + b, room) == ReadBackEntries(a, room)
  {
    hide ReadBackEntry;
    assert (a + b)[1..] == a[1..] + b;
    if ReadBackEntry(a[0], room).Ok? {
      ErrSpreads(a[1..], b, room);
    }
  }

  method Entries(p: Scanner, o: Conversions, depth: nat, ghost want: seq<Entry>, ghost rest: Units) returns (r: Result<seq<Entry>, SnbtError>)
    requires p.Valid() && depth <= p.limits.maxDepth
    modifies p`pos
    ensures p.Valid() && p.pos >= old(p.pos) && (r.Ok? ==> forall e :: e in r.value ==> Canonical(e.value))
    ensures EntriesAhead(p.input, old(p.pos), want, 0, rest) && want != [] ==>
      r == ReadBackEntries(want, p.limits.maxDepth - depth) && (r.Ok? ==> Follows(p.input, p.pos, rest))
    decreases |p.input| - p.pos, 5
  {
    hide Follows, EntriesAhead, EntryAhead, EntryTail, EntriesText, ReadBackEntries, ReadBackEntry, Canonical, KeyText, TagText, IsWhite;
    ghost var printed := EntriesAhead(p.input, p.pos, want, 0, rest) && want != [];
    ghost var begin := p.pos;
    var entries: seq<Entry> := [];
    NothingReadBack(p.limits.maxDepth - depth);
    assert want[..0] == [];
    while true
      invariant p.Valid() && p.pos >= begin
      invariant forall e :: e in entries ==> Canonical(e.value)
      invariant printed ==> |entries| < |want| && ReadBackEntries(want[..|entries|], p.limits.maxDepth - depth) == Ok(entries)
                            && EntriesAhead(p.input, p.pos, want, |entries|, rest)
      decreases |p.input| - p.pos
    {
      ghost var k, before := |entries|, p.pos;
      InBounds(p);
      if printed {
        EntriesStep(p.input, p.pos, want, k, rest);
        ReadBackNext(want, k, p.limits.maxDepth - depth);
        Whole(want);
      }
      var entry := ReadEntry(p, o, depth, if printed then want[k] else Entry([], End), if printed then EntryTail(want, k, rest) else []);
      if entry.Err? {
        return Err(entry.error);
      }
      entries := entries + [entry.value];
      if printed {
        AfterEntry(p.input, p.pos, want, k, rest, before);
      }
      SpaceAhead(p);
      var closed := p.Eat(CLOSE_BRACE);
      if closed {
        return Ok(entries);
      }
      var comma := p.Expect(COMMA);
      if comma.Err? {
        return Err(comma.error);
      }
      SpaceAhead(p);
      closed := p.Eat(CLOSE_BRACE);
      if closed {
        return Ok(entries);
      }
    }
  }

  lemma NothingReadBack(room: nat)
    ensures ReadBackEntries([], room) == Ok([]) && ReadBackAll([], room) == Ok([])
  {
  }

  lemma Whole<T>(s: seq<T>)
    ensures s[..|s|] == s
  {
  }

  lemma SpaceAhead(p: Scanner)
    requires p.Valid()
    ensures p.pos <= SpaceEnd(p.input, p.pos) <= |p.input|
  {
  }

  // ----- lists -----

  ghost predicate ValuesAhead(input: Units, pos: nat, want: seq<Tag>, k: nat, rest: Units) {
    && k <= |want| && Follows(input, pos, ValuesText(want[k..]) + ([CLOSE_BRACKET] + rest)) && Ends(rest)
    && (forall v :: v in want ==> NoFloats(v) && Canonical(v))
  }

  ghost function ValueTail(want: seq<Tag>, k: nat, rest: Units): Units
    requires k < |want|
  {
    if k + 1 == |want| then [CLOSE_BRACKET] + rest else [COMMA] + (ValuesText(want[k + 1..]) + ([CLOSE_BRACKET] + rest))
  }

  lemma ValuesStep(input: Units, pos: nat, want: seq<Tag>, k: nat, rest: Units)
    requires ValuesAhead(input, pos, want, k, rest) && k < |want|
    ensures ValueAhead(input, pos, want[k], ValueTail(want, k, rest))
  {
    hide TagText, Levels, NoFloats, Canonical, Follows;
    assert want[k..][1..] == want[k + 1..];
    assert ValuesText(want[k..]) + ([CLOSE_BRACKET] + rest) == TagText(want[k]) + ValueTail(want, k, rest);
  }

  lemma ValuesHead(input: Units, pos: nat, want: seq<Tag>, k: nat, rest: Units)
    requires ValuesAhead(input, pos, want, k, rest) && k < |want|
    ensures SpaceEnd(input, pos) == pos < |input| && input[pos] !in {CLOSE_BRACKET, 66, 73, 76}
  {
    hide ValuesAhead, ValueAhead, TagText, Follows, ValuesText, EntriesText, NumbersText, QuotedText, Canonical, NoFloats;
    ValuesStep(input, pos, want, k, rest);
    FirstUnit(input, pos, want[k], ValueTail(want, k, rest));
    NotFloat(input, pos, want[k], ValueTail(want, k, rest));
  }

  lemma NotFloat(input: Units, pos: nat, want: Tag, rest: Units)
    requires ValueAhead(input, pos, want, rest)
    ensures !want.FloatTag? && !want.DoubleTag?
  {
  }

  lemma AfterValue(input: Units, pos: nat, want: seq<Tag>, k: nat, rest: Units, before: nat)
    requires k < |want| && Follows(input, pos, ValueTail(want, k, rest)) && ValuesAhead(input, before, want, k, rest)
    ensures SpaceEnd(input, pos) == pos < |input| && input[pos] == (if k + 1 == |want| then CLOSE_BRACKET else COMMA)
    ensures k + 1 == |want| ==> Follows(input, pos + 1, rest)
    ensures k + 1 < |want| ==> ValuesAhead(input, pos + 1, want, k + 1, rest)
    ensures k + 1 < |want| ==> SpaceEnd(input, pos + 1) == pos + 1 < |input| && input[pos + 1] != CLOSE_BRACKET
  {
    hide TagText, Levels, NoFloats, Canonical, ValuesText;
    if k + 1 == |want| {
      Advance(input, pos, [CLOSE_BRACKET], rest);
    } else {
      Advance(input, pos, [COMMA], ValuesText(want[k + 1..]) + ([CLOSE_BRACKET] + rest));
      ValuesHead(input, pos + 1, want, k + 1, rest);
    }
  }

  lemma ReadBackNextValue(want: seq<Tag>, k: nat, room: nat)
    requires k < |want| && ReadBackAll(want[..k], room).Ok?
    ensures var before, value := ReadBackAll(want[..k], room), ReadBack(want[k], room);
      && (value.Ok? ==> ReadBackAll(want[..k + 1], room) == Ok(before.value + [value.value]))
      && (value.Err? ==> ReadBackAll(want, room) == Err(value.error))
  {
    hide ReadBack, ReadBackAll;
    assert want[..k + 1] == want[..k] + [want[k]];
    ReadBackAppendValue(want[..k], want[k], room);
    if ReadBack(want[k], room).Err? {
      assert want == want[..k + 1] + want[k + 1..];
      ErrSpreadsValue(want[..k + 1], want[k + 1..], room);
    }
  }

  lemma {:induction false} ReadBackAppendValue(values: seq<Tag>, v: Tag, room: nat)
    requires ReadBackAll(values, room).Ok?
    ensures var value := ReadBack(v, room);
      ReadBackAll(values + [v], room) ==
        if value.Err? then Err(value.error) else Ok(ReadBackAll(values, room).value + [value.value])
  {
    hide ReadBack;
    if values == [] {
      assert values + [v] == [v] && [v][1..] == [];
      assert ReadBackAll([], room) == Ok([]);
      var last: seq<Tag> := if ReadBack(v, room).Ok? then [ReadBack(v, room).value] else [];
      assert last + [] == [] + last;
    } else {
      ReadBackAppendValue(values[1..], v, room);
      assert (values + [v])[1..] == values[1..] + [v];
      var head, rest := [ReadBack(values[0], room).value], ReadBackAll(values[1..], room).value;
      if ReadBack(v, room).Ok? {
        assert head + (rest + [ReadBack(v, room).value]) == head + rest + [ReadBack(v, room).value];
      }
    }
  }

  lemma {:induction false} ErrSpreadsValue(a: seq<Tag>, b: seq<Tag>, room: nat)
    requires ReadBackAll(a, room).Err?
    ensures ReadBackAll(a + b, room) == ReadBackAll(a, room)
  {
    hide ReadBack;
    assert (a + b)[1..] == a[1..] + b;
    if ReadBack(a[0], room).Ok? {
      ErrSpreadsValue(a[1..], b, room);
    }
  }

  method Values(p: Scanner, o: Conversions, depth: nat, ghost want: seq<Tag>, ghost rest: Units) returns (r: Result<seq<Tag>, SnbtError>)
    requires p.Valid() && depth <= p.limits.maxDepth
    modifies p`pos
    ensures p.Valid() && p.pos >= old(p.pos) && (r.Ok? ==> forall v :: v in r.value ==> Canonical(v))
    ensures ValuesAhead(p.input, old(p.pos), want, 0, rest) && want != [] ==>
      r == ReadBackAll(want, p.limits.maxDepth - depth) && (r.Ok? ==> Follows(p.input, p.pos, rest))
    decreases |p.input| - p.pos, 5
  {
    hide Follows, ValuesAhead, ValueAhead, ValueTail, ValuesText, ReadBackAll, ReadBack, Canonical, TagText, IsWhite;
    ghost var printed := ValuesAhead(p.input, p.pos, want, 0, rest) && want != [];
    ghost var begin := p.pos;
    var values: seq<Tag> := [];
    NothingReadBack(p.limits.maxDepth - depth);
    assert want[..0] == [];
    while true
      invariant p.Valid() && p.pos >= begin
      invariant forall v :: v in values ==> Canonical(v)
      invariant printed ==> |values| < |want| && ReadBackAll(want[..|values|], p.limits.maxDepth - depth) == Ok(values)
                            && ValuesAhead(p.input, p.pos, want, |values|, rest)
      decreases |p.input| - p.pos
    {
      ghost var k, before := |values|, p.pos;
      if printed {
        ValuesStep(p.input, p.pos, want, k, rest);
        ReadBackNextValue(want, k, p.limits.maxDepth - depth);
        Whole(want);
      }
      var value := Value(p, o, depth, if printed then want[k] else End, if printed then ValueTail(want, k, rest) else []);
      if value.Err? {
        return Err(value.error);
      }
      values := values + [value.value];
      if printed {
        AfterValue(p.input, p.pos, want, k, rest, before);
      }
      var closed := p.Eat(CLOSE_BRACKET);
      if closed {
        return Ok(values);
      }
      var comma := p.Expect(COMMA);
      if comma.Err? {
        return Err(comma.error);
      }
      closed := p.Eat(CLOSE_BRACKET);
      if closed {
        return Ok(values);
      }
    }
  }

  // ----- number arrays -----

  /** The numbers of a printed array from the `k`th on, then its bracket. */
  ghost predicate NumbersAhead(input: Units, pos: nat, want: seq<int>, k: nat, suffix: Units, rest: Units) {
    k <= |want| && Follows(input, pos, NumbersText(want[k..], suffix) + ([CLOSE_BRACKET] + rest)) && Ends(rest) && IsSuffix(suffix)
  }

  ghost function NumberTail(want: seq<int>, k: nat, suffix: Units, rest: Units): Units
    requires k < |want|
  {
    if k + 1 == |want| then [CLOSE_BRACKET] + rest else [COMMA] + (NumbersText(want[k + 1..], suffix) + ([CLOSE_BRACKET] + rest))
  }

  lemma NumbersStep(input: Units, pos: nat, want: seq<int>, k: nat, suffix: Units, rest: Units)
    requires NumbersAhead(input, pos, want, k, suffix, rest) && k < |want|
    ensures PrintedNumber(input, pos, want[k] < 0, Magnitude(want[k]), suffix, NumberTail(want, k, suffix, rest))
    ensures SpaceEnd(input, pos) == pos < |input| && input[pos] != CLOSE_BRACKET
  {
    hide IntText, Decimal, Follows;
    var tail := NumberTail(want, k, suffix, rest);
    assert want[k..][1..] == want[k + 1..];
    assert NumbersText(want[k..], suffix) + ([CLOSE_BRACKET] + rest) == IntText(want[k]) + suffix + tail;
    IntegerText(want[k], suffix, tail);
    NumberHead(input, pos, want[k] < 0, Magnitude(want[k]), suffix, tail);
  }

  lemma AfterNumber(input: Units, pos: nat, want: seq<int>, k: nat, suffix: Units, rest: Units)
    requires k < |want| && Follows(input, pos, NumberTail(want, k, suffix, rest)) && Ends(rest) && IsSuffix(suffix)
    ensures SpaceEnd(input, pos) == pos < |input| && input[pos] == (if k + 1 == |want| then CLOSE_BRACKET else COMMA)
    ensures k + 1 == |want| ==> Follows(input, pos + 1, rest)
    ensures k + 1 < |want| ==> NumbersAhead(input, pos + 1, want, k + 1, suffix, rest)
    ensures k + 1 < |want| ==> SpaceEnd(input, pos + 1) == pos + 1 < |input| && input[pos + 1] != CLOSE_BRACKET
  {
    hide NumbersText;
    if k + 1 == |want| {
      Advance(input, pos, [CLOSE_BRACKET], rest);
    } else {
      Advance(input, pos, [COMMA], NumbersText(want[k + 1..], suffix) + ([CLOSE_BRACKET] + rest));
      NumbersStep(input, pos + 1, want, k + 1, suffix, rest);
    }
  }

  /** A literal that reads back as this number. */
  ghost predicate Denotes(input: Units, literal: Literal, v: int, suffix: Units) {
    && literal.start <= literal.end <= |input| && input[literal.start..literal.end] == Decimal(Magnitude(v))
    && literal.radix == 10 && literal.negative == (v < 0) && !literal.unsigned && literal.width == WidthOf(suffix)
  }

  predicate LiteralOk(input: Units, literal: Literal) {
    literal.start <= literal.end <= |input| && literal.radix > 0 && (literal.width.Some? ==> literal.width.value in {8, 16, 32, 64})
  }

  /** The literals of a number array. */
  method Literals(p: Scanner, ghost want: seq<int>, ghost suffix: Units, ghost rest: Units) returns (r: Result<seq<Literal>, SnbtError>)
    requires p.Valid()
    modifies p`pos
    ensures p.Valid() && p.pos >= old(p.pos) && (r.Ok? ==> forall i :: 0 <= i < |r.value| ==> LiteralOk(p.input, r.value[i]))
    ensures NumbersAhead(p.input, old(p.pos), want, 0, suffix, rest) ==>
      && r.Ok? && |r.value| == |want| && (forall i :: 0 <= i < |want| ==> Denotes(p.input, r.value[i], want[i], suffix))
      && Follows(p.input, p.pos, rest)
  {
    hide Follows, NumbersAhead, NumberTail, PrintedNumber, Decimal, NumbersText, WidthOf, IsWhite;
    ghost var printed := NumbersAhead(p.input, p.pos, want, 0, suffix, rest);
    if printed {
      NumbersOpen(p.input, p.pos, want, suffix, rest);
    }
    var literals: seq<Literal> := [];
    var closed := p.Eat(CLOSE_BRACKET);
    if closed {
      return Ok(literals);
    }
    ghost var begin := p.pos;
    while true
      invariant p.Valid() && p.pos >= begin
      invariant forall i :: 0 <= i < |literals| ==> LiteralOk(p.input, literals[i])
      invariant printed ==> |literals| < |want| && NumbersAhead(p.input, p.pos, want, |literals|, suffix, rest)
      invariant printed ==> forall i :: 0 <= i < |literals| ==> Denotes(p.input, literals[i], want[i], suffix)
      decreases |p.input| - p.pos
    {
      ghost var k := |literals|;
      if printed {
        NumbersStep(p.input, p.pos, want, k, suffix, rest);
        NumbersFacts(p.input, p.pos, want, k, suffix, rest);
      }
      ghost var v := if printed then want[k] else 0;
      var literal := p.Integer(v < 0, Magnitude(v), suffix, if printed then NumberTail(want, k, suffix, rest) else []);
      if literal.Err? {
        return Err(literal.error);
      }
      literals := literals + [literal.value];
      if printed {
        AfterNumber(p.input, p.pos, want, k, suffix, rest);
      }
      closed := p.Eat(CLOSE_BRACKET);
      if closed {
        return Ok(literals);
      }
      var comma := p.Expect(COMMA);
      if comma.Err? {
        return Err(comma.error);
      }
      closed := p.Eat(CLOSE_BRACKET);
      if closed {
        return Ok(literals);
      }
    }
  }

  lemma NumbersFacts(input: Units, pos: nat, want: seq<int>, k: nat, suffix: Units, rest: Units)
    requires NumbersAhead(input, pos, want, k, suffix, rest)
    ensures Ends(rest) && IsSuffix(suffix)
  {
  }

  lemma NumbersOpen(input: Units, pos: nat, want: seq<int>, suffix: Units, rest: Units)
    requires NumbersAhead(input, pos, want, 0, suffix, rest)
    ensures SpaceEnd(input, pos) == pos < |input| && (want == [] <==> input[pos] == CLOSE_BRACKET)
    ensures want == [] ==> Follows(input, pos + 1, rest)
  {
    assert want[0..] == want;
    if want == [] {
      assert NumbersText(want, suffix) + ([CLOSE_BRACKET] + rest) == [CLOSE_BRACKET] + rest;
      Advance(input, pos, [CLOSE_BRACKET], rest);
    } else {
      NumbersStep(input, pos, want, 0, suffix, rest);
    }
  }

  /** A wider suffix than the array's is an error; a narrower one keeps its own width. */
  method ArrayInteger(p: Scanner, literal: Literal, width: nat, ghost v: int, ghost suffix: Units) returns (r: Result<int, SnbtError>)
    requires LiteralOk(p.input, literal) && width in {8, 32, 64}
    ensures r.Ok? ==> -Half(width) <= r.value < Half(width)
    ensures literal.width.Some? && literal.width.value > width ==> r == Err(ArrayElementType)
    ensures Denotes(p.input, literal, v, suffix) && (suffix == [] || WidthOf(suffix) == Some(width)) && -Half(width) <= v < Half(width) ==> r == Ok(v)
  {
    hide Decimal, Fold, Truncate;
    var actual := if literal.width.Some? then literal.width.value else width;
    if actual > width {
      return Err(ArrayElementType);
    }
    r := p.IntegerValue(literal, actual, Magnitude(v));
  }

  method ArrayTag(p: Scanner, width: nat, literals: seq<Literal>, ghost want: seq<int>, ghost suffix: Units) returns (r: Result<Tag, SnbtError>)
    requires width in {8, 32, 64} && forall i :: 0 <= i < |literals| ==> LiteralOk(p.input, literals[i])
    ensures r.Ok? ==> Canonical(r.value)
    ensures (|want| == |literals| && (forall i :: 0 <= i < |want| ==> Denotes(p.input, literals[i], want[i], suffix))
             && (forall i :: 0 <= i < |want| ==> -Half(width) <= want[i] < Half(width)) && (suffix == [] || WidthOf(suffix) == Some(width)))
            ==> r == Ok(Numbered(width, want))
  {
    hide Denotes, LiteralOk, WidthOf;
    var values: seq<int> := [];
    ghost var printed := |want| == |literals| && (forall i :: 0 <= i < |want| ==> Denotes(p.input, literals[i], want[i], suffix))
                         && (forall i :: 0 <= i < |want| ==> -Half(width) <= want[i] < Half(width)) && (suffix == [] || WidthOf(suffix) == Some(width));
    for i := 0 to |literals|
      invariant |values| == i && forall k :: 0 <= k < i ==> -Half(width) <= values[k] < Half(width)
      invariant printed ==> values == want[..i]
    {
      var value := ArrayInteger(p, literals[i], width, if |want| == |literals| then want[i] else 0, suffix);
      if value.Err? {
        return Err(value.error);
      }
      values := values + [value.value];
    }
    Whole(want);
    r := Ok(Numbered(width, values));
  }

  function Numbered(width: nat, values: seq<int>): (r: Tag)
    requires width in {8, 32, 64} && forall k :: 0 <= k < |values| ==> -Half(width) <= values[k] < Half(width)
    ensures Canonical(r)
  {
    assert Half(8) == 0x80 && Half(32) == 0x8000_0000 && Half(64) == 0x8000_0000_0000_0000;
    if width == 8 then
      assert forall k :: 0 <= k < |values| ==> -0x80 <= values[k] < 0x80;
      ByteArray(values)
    else if width == 32 then
      assert forall k :: 0 <= k < |values| ==> -0x8000_0000 <= values[k] < 0x8000_0000;
      IntArray(values)
    else
      assert forall k :: 0 <= k < |values| ==> -0x8000_0000_0000_0000 <= values[k] < 0x8000_0000_0000_0000;
      LongArray(values)
  }

  /** Brackets hold a number array after a type letter and semicolon, else a list. */
  method List(p: Scanner, o: Conversions, depth: nat, ghost want: Tag, ghost rest: Units) returns (r: Result<Tag, SnbtError>)
    requires p.Valid() && p.pos < |p.input| && depth <= p.limits.maxDepth
    modifies p`pos
    ensures p.Valid() && p.pos >= old(p.pos) && (r.Ok? ==> p.pos > old(p.pos) && Canonical(r.value))
    ensures ValueAhead(p.input, old(p.pos), want, rest) && (want.ListTag? || want.ByteArray? || want.IntArray? || want.LongArray?) ==>
      r == ReadBack(want, p.limits.maxDepth - depth) && (r.Ok? ==> Follows(p.input, p.pos, rest))
    decreases |p.input| - p.pos, 2
  {
    hide Follows, ValueAhead, ValuesAhead, NumbersAhead, ReadBack, ReadBackAll, Canonical, TagText, ValuesText, NumbersText, IsWhite, Denotes, LiteralOk;
    ghost var printed := ValueAhead(p.input, p.pos, want, rest) && (want.ListTag? || want.ByteArray? || want.IntArray? || want.LongArray?);
    ghost var begin := p.pos;
    if printed {
      ListOpens(p.input, p.pos, want, rest, p.limits.maxDepth - depth);
    }
    if depth >= p.limits.maxDepth {
      return Err(TooDeep);
    }
    p.pos := p.pos + 1;
    var closed := p.Eat(CLOSE_BRACKET);
    if closed {
      NoEntriesCanonical();
      return Ok(ListTag([]));
    }
    var start := p.pos;
    p.Space();
    var width := if p.pos == |p.input| then 0 else if p.input[p.pos] == 66 then 8 else if p.input[p.pos] == 73 then 32 else if p.input[p.pos] == 76 then 64 else 0;
    if width != 0 {
      p.pos := p.pos + 1;
      var typed := p.Eat(SEMICOLON);
      if typed {
        var literals := Literals(p, ArrayValues(want), ArraySuffix(want), rest);
        if literals.Err? {
          return Err(literals.error);
        }
        r := ArrayTag(p, width, literals.value, ArrayValues(want), ArraySuffix(want));
        return;
      }
    }
    p.pos := start;
    var values := Values(p, o, depth + 1, if want.ListTag? then want.values else [], rest);
    if values.Err? {
      return Err(values.error);
    }
    NbtRead.ListCanonical(values.value);
    r := Ok(ListTag(values.value));
  }

  /** What an opening bracket of a printed list or array is followed by. */
  lemma ListOpens(input: Units, pos: nat, want: Tag, rest: Units, room: nat)
    requires ValueAhead(input, pos, want, rest) && (want.ListTag? || want.ByteArray? || want.IntArray? || want.LongArray?)
    ensures room == 0 ==> ReadBack(want, room) == Err(TooDeep)
    ensures pos + 1 < |input| && SpaceEnd(input, pos + 1) == pos + 1
    ensures want.ListTag? ==>
      && (want.values == [] <==> input[pos + 1] == CLOSE_BRACKET) && (want.values == [] ==> Follows(input, pos + 2, rest))
      && (want.values != [] ==> input[pos + 1] !in {66, 73, 76} && ValuesAhead(input, pos + 1, want.values, 0, rest))
      && (room > 0 ==> ReadBack(want, room) == (if ReadBackAll(want.values, room - 1).Err? then Err(ReadBackAll(want.values, room - 1).error)
                                                else Ok(ListTag(ReadBackAll(want.values, room - 1).value))))
      && (room > 0 && want.values == [] ==> ReadBack(want, room) == Ok(ListTag([])))
    ensures !want.ListTag? ==>
      && input[pos + 1] == ArrayLetter(want) != CLOSE_BRACKET && pos + 2 < |input| && SpaceEnd(input, pos + 2) == pos + 2
      && input[pos + 2] == SEMICOLON && NumbersAhead(input, pos + 3, ArrayValues(want), 0, ArraySuffix(want), rest)
      && (room > 0 ==> ReadBack(want, room) == Ok(want)) && want == Numbered(ArrayWidth(want), ArrayValues(want))
      && (ArraySuffix(want) == [] || WidthOf(ArraySuffix(want)) == Some(ArrayWidth(want)))
      && ArrayWidth(want) == (if ArrayLetter(want) == 66 then 8 else if ArrayLetter(want) == 73 then 32 else 64)
      && forall i :: 0 <= i < |ArrayValues(want)| ==> -Half(ArrayWidth(want)) <= ArrayValues(want)[i] < Half(ArrayWidth(want))
  {
    hide ValuesText, NumbersText, Follows, NoFloats, Canonical, LevelsOf;
    FirstUnit(input, pos, want, rest);
    if want.ListTag? {
      ListReady(input, pos, want, rest);
    } else {
      assert ArrayValues(want)[0..] == ArrayValues(want);
    }
  }

  lemma ListReady(input: Units, pos: nat, want: Tag, rest: Units)
    requires ValueAhead(input, pos, want, rest) && want.ListTag?
    requires Follows(input, pos + 1, ValuesText(want.values) + ([CLOSE_BRACKET] + rest))
    ensures SpaceEnd(input, pos + 1) == pos + 1 < |input|
    ensures want.values == [] ==> input[pos + 1] == CLOSE_BRACKET && Follows(input, pos + 2, rest)
    ensures want.values != [] ==>
      input[pos + 1] !in {CLOSE_BRACKET, 66, 73, 76} && ValuesAhead(input, pos + 1, want.values, 0, rest)
  {
    hide LevelsOf, TagText;
    assert want.values[0..] == want.values;
    if want.values == [] {
      assert ValuesText(want.values) + ([CLOSE_BRACKET] + rest) == [CLOSE_BRACKET] + rest;
      Advance(input, pos + 1, [CLOSE_BRACKET], rest);
    } else {
      ValuesHead(input, pos + 1, want.values, 0, rest);
    }
  }

  // ----- whole inputs -----

  /** One value and nothing but space after it. */
  method ParseUtf16(input: Units, limits: SnbtLimits, names: Units -> Option<nat>, o: Conversions, ghost want: Tag) returns (r: Result<Tag, SnbtError>)
    ensures limits.maxDepth > 512 ==> r == Err(InvalidLimits)
    ensures limits.maxDepth <= 512 && |input| > limits.inputUnits ==> r == Err(SnbtError.InputLimit)
    ensures r.Ok? ==> Canonical(r.value)
    ensures input == TagText(want) && NoFloats(want) && Canonical(want) && limits.maxDepth <= 512 && |input| <= limits.inputUnits ==>
      && r == ReadBack(want, limits.maxDepth)
      && (r == Ok(want) <==> Clean(want) && Levels(want, 1) <= limits.maxDepth)
      && (Clean(want) && Levels(want, 1) > limits.maxDepth ==> r == Err(TooDeep))
  {
    hide Follows, TagText, Levels, NoFloats, Canonical, ReadBack, Clean;
    ReadBackIsIdentity(want, limits.maxDepth);
    if limits.maxDepth > 512 {
      return Err(InvalidLimits);
    }
    if |input| > limits.inputUnits {
      return Err(SnbtError.InputLimit);
    }
    var p := new Scanner(input, limits, names);
    Everything(input, TagText(want));
    r := Value(p, o, 0, want, []);
    if r.Err? {
      return;
    }
    if Follows(p.input, p.pos, []) {
      Head(p.input, p.pos, []);
    }
    p.Space();
    if p.pos != |input| {
      r := Err(TrailingData);
    }
  }

  lemma Everything(input: Units, text: Units)
    ensures input == text ==> Follows(input, 0, text + [])
  {
    assert input[0..] == input && text + [] == text;
  }

  /** One value and how much of the input it took; what follows is left alone. */
  method ParsePrefix(input: Units, limits: SnbtLimits, names: Units -> Option<nat>, o: Conversions, ghost want: Tag, ghost rest: Units)
      returns (r: Result<(Tag, nat), SnbtError>)
    ensures limits.maxDepth > 512 ==> r == Err(InvalidLimits)
    ensures r.Ok? ==> Canonical(r.value.0) && r.value.1 <= |input|
    ensures (ValueAhead(input, 0, want, rest) && limits.maxDepth <= 512 && |input| <= limits.inputUnits) ==>
      var read := ReadBack(want, limits.maxDepth);
      r == (if read.Err? then Err(read.error) else Ok((read.value, |input| - |rest|)))
  {
    hide ValueAhead, Canonical, ReadBack;
    if limits.maxDepth > 512 {
      return Err(InvalidLimits);
    }
    if |input| > limits.inputUnits {
      return Err(SnbtError.InputLimit);
    }
    var p := new Scanner(input, limits, names);
    var value := Value(p, o, 0, want, rest);
    r := if value.Err? then Err(value.error) else Ok((value.value, p.pos));
  }

  /** The printer counts no level for a number array: `[[I;]]` prints at depth one and is too deep to be read there. */
  lemma ArrayAtTheLimit(limits: SnbtLimits) returns (want: Tag)
    requires limits.maxDepth == 1
    ensures NoFloats(want) && Canonical(want) && Clean(want)
    ensures Levels(want, 0) <= limits.maxDepth && TagText(want) == [91, 91, 73, 59, 93, 93]
    ensures ReadBack(want, limits.maxDepth) == Err(TooDeep)
  {
    want := ListTag([IntArray([])]);
    assert ValuesText(want.values) == TagText(IntArray([]));
    ReadBackIsIdentity(want, 1);
    assert LevelsOf(want.values, 0) == Most(Levels(IntArray([]), 0), LevelsOf([], 0));
    assert LevelsOf(want.values, 1) == Most(Levels(IntArray([]), 1), LevelsOf([], 1));
  }

  /** Between what prints and what reads there are exactly the trees whose arrays reach the limit. */
  lemma PrintsButDoesNotRead(tag: Tag, limit: nat)
    requires Clean(tag)
    ensures Levels(tag, 0) <= limit && ReadBack(tag, limit) != Ok(tag) <==> Levels(tag, 0) <= limit < Levels(tag, 1)
    ensures Levels(tag, 0) <= Levels(tag, 1) <= Levels(tag, 0) + 1
  {
    ReadBackIsIdentity(tag, limit);
    ArraysAddOneLevel(tag);
  }

  lemma {:induction false} ArraysAddOneLevel(tag: Tag)
    ensures Levels(tag, 0) <= Levels(tag, 1) <= Levels(tag, 0) + 1
    decreases tag, 0
  {
    match tag
    case ListTag(values) => ArraysAddOneLevelOf(values);
    case CompoundTag(entries) => ArraysAddOneLevelIn(entries);
    case _ =>
  }

  lemma {:induction false} ArraysAddOneLevelOf(values: seq<Tag>)
    ensures LevelsOf(values, 0) <= LevelsOf(values, 1) <= LevelsOf(values, 0) + 1
    decreases values, 0
  {
    if values != [] {
      ArraysAddOneLevel(values[0]);
      ArraysAddOneLevelOf(values[1..]);
    }
  }

  lemma {:induction false} ArraysAddOneLevelIn(entries: seq<Entry>)
    ensures LevelsIn(entries, 0) <= LevelsIn(entries, 1) <= LevelsIn(entries, 0) + 1
    decreases entries, 0
  {
    if entries != [] {
      ArraysAddOneLevel(entries[0].value);
      ArraysAddOneLevelIn(entries[1..]);
    }
  }
}
