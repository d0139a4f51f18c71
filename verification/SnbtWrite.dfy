/** Compact text output under limits of depth and length. */
module SnbtWrite {
  import opened World
  import opened Nbt
  import opened SnbtText

  datatype SnbtLimits = SnbtLimits(maxDepth: nat, inputUnits: nat, outputUnits: nat)

  // ----- texts only grow -----

  lemma {:induction false} NumbersGrow(values: seq<int>, i: nat, suffix: Units)
    requires i < |values|
    ensures NumbersText(values[..i + 1], suffix) == NumbersText(values[..i], suffix) + Comma(i == 0) + (IntText(values[i]) + suffix)
    ensures |NumbersText(values[..i + 1], suffix)| <= |NumbersText(values, suffix)|
    decreases |values| - i
  {
    hide IntText;
    assert values[..i + 1] == values[..i] + [values[i]];
    NumbersAppend(values[..i], values[i], suffix);
    if i + 1 < |values| {
      NumbersGrow(values, i + 1, suffix);
    } else {
      assert values[..i + 1] == values;
    }
  }

  lemma {:induction false} ValuesGrow(values: seq<Tag>, i: nat)
    requires i < |values|
    ensures ValuesText(values[..i + 1]) == ValuesText(values[..i]) + Comma(i == 0) + TagText(values[i])
    ensures |ValuesText(values[..i + 1])| <= |ValuesText(values)|
    decreases |values| - i
  {
    hide TagText;
    assert values[..i + 1] == values[..i] + [values[i]];
    ValuesAppend(values[..i], values[i]);
    if i + 1 < |values| {
      ValuesGrow(values, i + 1);
    } else {
      assert values[..i + 1] == values;
    }
  }

  lemma {:induction false} EntriesGrow(entries: seq<Entry>, i: nat)
    requires i < |entries|
    ensures EntriesText(entries[..i + 1])
            == EntriesText(entries[..i]) + Comma(i == 0) + (KeyText(entries[i].name) + [COLON] + TagText(entries[i].value))
    ensures |EntriesText(entries[..i + 1])| <= |EntriesText(entries)|
    decreases |entries| - i
  {
    hide TagText, KeyText;
    assert entries[..i + 1] == entries[..i] + [entries[i]];
    EntriesAppend(entries[..i], entries[i]);
    if i + 1 < |entries| {
      EntriesGrow(entries, i + 1);
    } else {
      assert entries[..i + 1] == entries;
    }
  }

  lemma {:induction false} BodyGrows(units: Units, i: nat, quote: u16)
    requires i < |units|
    ensures Body(units[..i + 1], quote) == Body(units[..i], quote) + Escaped(units[i], quote)
    ensures |Body(units[..i + 1], quote)| <= |Body(units, quote)|
    decreases |units| - i
  {
    hide Escaped;
    assert units[..i + 1] == units[..i] + [units[i]];
    BodyAppend(units[..i], units[i], quote);
    if i + 1 < |units| {
      BodyGrows(units, i + 1, quote);
    } else {
      assert units[..i + 1] == units;
    }
  }

  /** The quote a string is written in: the first one inside decides. */
  method ChooseQuote(units: Units) returns (quote: u16)
    ensures quote == QuoteFor(units)
  {
    for i := 0 to |units|
      invariant QuoteFor(units) == QuoteFor(units[i..])
    {
      assert units[i..][1..] == units[i + 1..];
      if units[i] == QUOTE {
        return APOSTROPHE;
      }
      if units[i] == APOSTROPHE {
        return QUOTE;
      }
    }
    quote := QUOTE;
  }

  method IsBareKey(name: Units) returns (bare: bool)
    ensures bare == IsBare(name)
  {
    if name == [] || !IsWordUnit(name[0]) {
      return false;
    }
    for i := 1 to |name|
      invariant forall k :: 0 < k < i ==> IsInnerUnit(name[k])
    {
      if !IsInnerUnit(name[i]) {
        return false;
      }
    }
    bare := !IsBoolean(name);
  }

  // ----- the writer -----

  /** The text was appended within the limit, or the text would not fit. */
  ghost predicate Appended(r: Result<(), SnbtError>, before: Units, after: Units, text: Units, start: nat, limit: nat) {
    && start <= |before| && before <= after
    && (r.Ok? ==> after == before + text && |after| - start <= limit)
    && (r.Err? ==> r.error == OutputFull && |before| - start + |text| > limit)
  }

  /** As above, and within the depth, or the tree would be too deep. */
  ghost predicate Printed(r: Result<(), SnbtError>, before: Units, after: Units, text: Units, start: nat, limits: SnbtLimits, depth: nat, levels: nat) {
    && start <= |before| && before <= after
    && (r.Ok? ==> after == before + text && |after| - start <= limits.outputUnits && (levels > 0 ==> depth + levels <= limits.maxDepth))
    && (r.Err? ==> (r.error == OutputFull && |before| - start + |text| > limits.outputUnits)
                   || (r.error == TooDeep && levels > 0 && depth + levels > limits.maxDepth))
  }

  class Writer {
    var output: Units
    const start: nat
    const limits: SnbtLimits

    constructor (output: Units, limits: SnbtLimits)
      ensures this.output == output && start == |output| && this.limits == limits
    {
      this.output, this.start, this.limits := output, |output|, limits;
    }

    method Put(text: Units) returns (r: Result<(), SnbtError>)
      requires start <= |output|
      modifies `output
      ensures Appended(r, old(output), output, text, start, limits.outputUnits)
      ensures r.Err? ==> output == old(output)
    {
      if |output| - start + |text| > limits.outputUnits {
        return Err(OutputFull);
      }
      output := output + text;
      r := Ok(());
    }

    method Quoted(units: Units) returns (r: Result<(), SnbtError>)
      requires start <= |output|
      modifies `output
      ensures Appended(r, old(output), output, QuotedText(units), start, limits.outputUnits)
    {
      hide Body, QuoteFor, Escaped;
      var quote := ChooseQuote(units);
      ghost var before := output;
      r := Put([quote]);
      if r.Err? {
        return;
      }
      NothingWritten(quote);
      assert units[..0] == [];
      for i := 0 to |units|
        invariant r.Ok? && output == before + [quote] + Body(units[..i], quote) && |output| - start <= limits.outputUnits
      {
        BodyGrows(units, i, quote);
        r := Unit(units[i], quote);
        if r.Err? {
          return;
        }
      }
      assert units[..|units|] == units;
      r := Put([quote]);
    }

    /** One unit inside quotes; escapes go out piece by piece. */
    method Unit(unit: u16, quote: u16) returns (r: Result<(), SnbtError>)
      requires start <= |output|
      modifies `output
      ensures Appended(r, old(output), output, Escaped(unit, quote), start, limits.outputUnits)
    {
      if unit == 8 {
        r := Put([BACKSLASH, 98]);
      } else if unit == 9 {
        r := Put([BACKSLASH, 116]);
      } else if unit == 10 {
        r := Put([BACKSLASH, 110]);
      } else if unit == 12 {
        r := Put([BACKSLASH, 102]);
      } else if unit == 13 {
        r := Put([BACKSLASH, 114]);
      } else if unit < 32 {
        r := Put([BACKSLASH, 120]);
        if r.Err? {
          return;
        }
        r := Put([HexUnit(unit / 16)]);
        if r.Err? {
          return;
        }
        r := Put([HexUnit(unit % 16)]);
      } else {
        if unit == quote || unit == BACKSLASH {
          r := Put([BACKSLASH]);
          if r.Err? {
            return;
          }
        }
        r := Put([unit]);
      }
    }

    method Key(name: Units) returns (r: Result<(), SnbtError>)
      requires start <= |output|
      modifies `output
      ensures Appended(r, old(output), output, KeyText(name), start, limits.outputUnits)
    {
      hide IsBare, QuotedText;
      var bare := IsBareKey(name);
      if bare {
        r := Put(name);
      } else {
        r := Quoted(name);
      }
    }

    method Numbers(prefix: Units, values: seq<int>, suffix: Units) returns (r: Result<(), SnbtError>)
      requires start <= |output|
      modifies `output
      ensures Appended(r, old(output), output, prefix + NumbersText(values, suffix) + [CLOSE_BRACKET], start, limits.outputUnits)
    {
      hide IntText, NumbersText;
      ghost var before := output;
      r := Put(prefix);
      if r.Err? {
        return;
      }
      NoText(suffix);
      assert values[..0] == [];
      for i := 0 to |values|
        invariant r.Ok? && output == before + prefix + NumbersText(values[..i], suffix) && |output| - start <= limits.outputUnits
      {
        NumbersGrow(values, i, suffix);
        r := Put(Comma(i == 0));
        if r.Err? {
          return;
        }
        r := Put(IntText(values[i]));
        if r.Err? {
          return;
        }
        r := Put(suffix);
        if r.Err? {
          return;
        }
      }
      assert values[..|values|] == values;
      r := Put([CLOSE_BRACKET]);
    }

    method Number(value: int, suffix: Units) returns (r: Result<(), SnbtError>)
      requires start <= |output|
      modifies `output
      ensures Appended(r, old(output), output, IntText(value) + suffix, start, limits.outputUnits)
    {
      hide IntText;
      r := Put(IntText(value));
      if r.Ok? {
        r := Put(suffix);
      }
    }

    /** One tree; what is refused really is too long or too deep. */
    method Print(tag: Tag, depth: nat) returns (r: Result<(), SnbtError>)
      requires start <= |output| && NoFloats(tag)
      modifies `output
      ensures Printed(r, old(output), output, TagText(tag), start, limits, depth, Levels(tag, 0))
      decreases tag, 0
    {
      hide IntText, NumbersText, QuotedText, ValuesText, EntriesText, LevelsOf, LevelsIn;
      if (tag.ListTag? || tag.CompoundTag?) && depth >= limits.maxDepth {
        return Err(TooDeep);
      }
      match tag
      case End => r := Put([69, 78, 68]);
      case ByteTag(v) => r := Number(v, [98]);
      case ShortTag(v) => r := Number(v, [115]);
      case IntTag(v) => r := Number(v, []);
      case LongTag(v) => r := Number(v, [76]);
      case StringTag(units) => r := Quoted(units);
      case ByteArray(v) => r := Numbers([OPEN_BRACKET, 66, SEMICOLON], v, [66]);
      case IntArray(v) => r := Numbers([OPEN_BRACKET, 73, SEMICOLON], v, []);
      case LongArray(v) => r := Numbers([OPEN_BRACKET, 76, SEMICOLON], v, [76]);
      case ListTag(values) => r := Values(values, depth);
      case CompoundTag(entries) => r := Entries(entries, depth);
    }

    method Values(values: seq<Tag>, depth: nat) returns (r: Result<(), SnbtError>)
      requires start <= |output| && depth < limits.maxDepth && forall v :: v in values ==> NoFloats(v)
      modifies `output
      ensures Printed(r, old(output), output, [OPEN_BRACKET] + ValuesText(values) + [CLOSE_BRACKET], start, limits, depth, 1 + LevelsOf(values, 0))
      decreases values, 0
    {
      hide TagText, Levels, ValuesText, LevelsOf, NoFloats;
      ghost var before := output;
      r := Put([OPEN_BRACKET]);
      if r.Err? {
        return;
      }
      NoTrees();
      assert values[..0] == [];
      for i := 0 to |values|
        invariant r.Ok? && output == before + [OPEN_BRACKET] + ValuesText(values[..i]) && |output| - start <= limits.outputUnits
        invariant depth + 1 + LevelsOf(values[..i], 0) <= limits.maxDepth
      {
        ValuesGrow(values, i);
        LevelsGrow(values, i, 0);
        LevelsOfChild(values, i, 0);
        r := Put(Comma(i == 0));
        if r.Err? {
          return;
        }
        r := Print(values[i], depth + 1);
        if r.Err? {
          return;
        }
      }
      assert values[..|values|] == values;
      r := Put([CLOSE_BRACKET]);
    }

    method Label(first: bool, name: Units) returns (r: Result<(), SnbtError>)
      requires start <= |output|
      modifies `output
      ensures Appended(r, old(output), output, Comma(first) + KeyText(name) + [COLON], start, limits.outputUnits)
    {
      hide KeyText;
      r := Put(Comma(first));
      if r.Err? {
        return;
      }
      r := Key(name);
      if r.Err? {
        return;
      }
      r := Put([COLON]);
    }

    method Entries(entries: seq<Entry>, depth: nat) returns (r: Result<(), SnbtError>)
      requires start <= |output| && depth < limits.maxDepth && forall e :: e in entries ==> NoFloats(e.value)
      modifies `output
      ensures Printed(r, old(output), output, [OPEN_BRACE] + EntriesText(entries) + [CLOSE_BRACE], start, limits, depth, 1 + LevelsIn(entries, 0))
      decreases entries, 0
    {
      hide TagText, Levels, EntriesText, LevelsIn, NoFloats, KeyText;
      ghost var before := output;
      r := Put([OPEN_BRACE]);
      if r.Err? {
        return;
      }
      NoTrees();
      assert entries[..0] == [];
      for i := 0 to |entries|
        invariant r.Ok? && output == before + [OPEN_BRACE] + EntriesText(entries[..i]) && |output| - start <= limits.outputUnits
        invariant depth + 1 + LevelsIn(entries[..i], 0) <= limits.maxDepth
      {
        EntriesGrow(entries, i);
        LevelsInGrow(entries, i, 0);
        LevelsInChild(entries, i, 0);
        assert entries[i] in entries;
        r := Label(i == 0, entries[i].name);
        if r.Err? {
          return;
        }
        r := Print(entries[i].value, depth + 1);
        if r.Err? {
          return;
        }
      }
      assert entries[..|entries|] == entries;
      r := Put([CLOSE_BRACE]);
    }
  }

  lemma NothingWritten(quote: u16)
    ensures Body([], quote) == []
  {
  }

  lemma NoText(suffix: Units)
    ensures NumbersText([], suffix) == []
  {
  }

  lemma NoTrees()
    ensures ValuesText([]) == [] && EntriesText([]) == [] && LevelsOf([], 0) == 0 && LevelsIn([], 0) == 0
  {
  }

  lemma {:induction false} LevelsGrow(values: seq<Tag>, i: nat, arrays: nat)
    requires i < |values|
    ensures LevelsOf(values[..i + 1], arrays) == Most(LevelsOf(values[..i], arrays), Levels(values[i], arrays))
  {
    hide Levels;
    if i == 0 {
      assert values[..1] == [values[0]] && values[..0] == [] && [values[0]][1..] == [];
    } else {
      LevelsGrow(values[1..], i - 1, arrays);
      assert values[..i + 1][1..] == values[1..][..i] && values[..i][1..] == values[1..][..i - 1];
    }
  }

  lemma {:induction false} LevelsInGrow(entries: seq<Entry>, i: nat, arrays: nat)
    requires i < |entries|
    ensures LevelsIn(entries[..i + 1], arrays) == Most(LevelsIn(entries[..i], arrays), Levels(entries[i].value, arrays))
  {
    hide Levels;
    if i == 0 {
      assert entries[..1] == [entries[0]] && entries[..0] == [] && [entries[0]][1..] == [];
    } else {
      LevelsInGrow(entries[1..], i - 1, arrays);
      assert entries[..i + 1][1..] == entries[1..][..i] && entries[..i][1..] == entries[1..][..i - 1];
    }
  }

  /** Appends the text of one tree; on any refusal the original output is intact. */
  method Write(tag: Tag, output: Units, limits: SnbtLimits) returns (r: Result<(), SnbtError>, after: Units)
    requires NoFloats(tag)
    ensures limits.maxDepth > 512 ==> r == Err(InvalidLimits)
    ensures r.Ok? ==> after == output + TagText(tag) && |TagText(tag)| <= limits.outputUnits
    ensures r.Err? ==> after == output
    ensures limits.maxDepth <= 512 ==> (r.Ok? <==> Levels(tag, 0) <= limits.maxDepth && |TagText(tag)| <= limits.outputUnits)
  {
    hide TagText, Levels;
    after := output;
    if limits.maxDepth > 512 {
      return Err(InvalidLimits), after;
    }
    var writer := new Writer(output, limits);
    r := writer.Print(tag, 0);
    after := if r.Err? then writer.output[..writer.start] else writer.output;
  }
}
