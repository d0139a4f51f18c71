/** The lexical half of the text parser: a position moving over UTF-16 units. */
module SnbtScan {
  import opened World
  import opened Nbt
  import opened SnbtText
  import opened SnbtWrite

  // ----- classes of units -----

  predicate IsWhite(unit: u16) {
    9 <= unit <= 13 || 0x1c <= unit <= 0x20 || unit == 0x1680 || 0x2000 <= unit <= 0x2006 || 0x2008 <= unit <= 0x200a
    || unit == 0x2028 || unit == 0x2029 || unit == 0x205f || unit == 0x3000
  }

  predicate IsNumberStart(unit: u16) {
    unit == 43 || unit == 45 || unit == 46 || IsDigit(unit)
  }

  predicate IsUnquoted(unit: u16) {
    IsNumberStart(unit) || 65 <= unit <= 90 || unit == 95 || 97 <= unit <= 122
  }

  predicate IsNameUnit(unit: u16) {
    unit == 32 || unit == 45 || IsDigit(unit) || 65 <= unit <= 90 || 97 <= unit <= 122
  }

  function HexDigit(unit: u16): Option<nat> {
    if IsDigit(unit) then Some(unit - 48)
    else if 65 <= unit <= 70 then Some(unit - 55)
    else if 97 <= unit <= 102 then Some(unit - 87)
    else None
  }

  predicate InRadix(unit: u16, radix: nat) {
    unit == 95 || (HexDigit(unit).Some? && HexDigit(unit).value < radix)
  }

  /** Blanks are the controls that separate, and every space but those that forbid a line break. */
  lemma WhiteMeans(unit: u16)
    ensures IsWhite(unit) <==>
      || unit in {0x09, 0x0a, 0x0b, 0x0c, 0x0d, 0x1c, 0x1d, 0x1e, 0x1f, 0x20, 0x1680, 0x2028, 0x2029, 0x205f, 0x3000}
      || (0x2000 <= unit <= 0x200a && unit != 0x2007)
    ensures !IsWhite(0xa0) && !IsWhite(0x202f)
  {
  }

  /** Hexadecimal digits count from zero to fifteen in either case, and nothing else is one. */
  lemma HexDigitMeans(unit: u16)
    ensures forall d :: 0 <= d <= 9 ==> (unit == 48 + d <==> HexDigit(unit) == Some(d))
    ensures forall d :: 10 <= d <= 15 ==> (unit == 65 + d - 10 || unit == 97 + d - 10 <==> HexDigit(unit) == Some(d))
    ensures HexDigit(unit).Some? ==> HexDigit(unit).value <= 15
  {
  }

  // ----- where runs end -----

  function SpaceEnd(input: Units, pos: nat): (r: nat)
    requires pos <= |input|
    ensures pos <= r <= |input| && (r < |input| ==> !IsWhite(input[r]))
    decreases |input| - pos
  {
    if pos < |input| && IsWhite(input[pos]) then SpaceEnd(input, pos + 1) else pos
  }

  function DigitsEnd(input: Units, pos: nat, radix: nat): (r: nat)
    requires pos <= |input|
    ensures pos <= r <= |input|
    decreases |input| - pos
  {
    if pos < |input| && InRadix(input[pos], radix) then DigitsEnd(input, pos + 1, radix) else pos
  }

  function WordEnd(input: Units, pos: nat): (r: nat)
    requires pos <= |input|
    ensures pos <= r <= |input|
    decreases |input| - pos
  {
    if pos < |input| && IsUnquoted(input[pos]) then WordEnd(input, pos + 1) else pos
  }

  // ----- what lies ahead -----

  /** From here on the input is exactly this. */
  ghost predicate Follows(input: Units, pos: nat, text: Units) {
    pos <= |input| && input[pos..] == text
  }

  lemma Advance(input: Units, pos: nat, a: Units, b: Units)
    requires Follows(input, pos, a + b)
    ensures pos + |a| <= |input| && Follows(input, pos + |a|, b) && input[pos..pos + |a|] == a
    ensures a != [] ==> pos < |input| && input[pos] == a[0]
    ensures a == [] && b != [] ==> pos < |input| && input[pos] == b[0]
    ensures a == [] && b == [] ==> pos == |input|
  {
    assert input[pos..][|a|..] == input[pos + |a|..];
    assert input[pos..][..|a|] == input[pos..pos + |a|];
  }

  lemma Head(input: Units, pos: nat, text: Units)
    requires Follows(input, pos, text)
    ensures text == [] ==> pos == |input|
    ensures text != [] ==> pos < |input| && input[pos] == text[0]
  {
  }

  /** What may come after a printed value. */
  predicate Ends(rest: Units) {
    rest == [] || rest[0] == COMMA || rest[0] == CLOSE_BRACKET || rest[0] == CLOSE_BRACE
  }

  lemma {:induction false} RunEnds(input: Units, pos: nat, run: Units, tail: Units, radix: nat)
    requires Follows(input, pos, run + tail) && (forall i :: 0 <= i < |run| ==> InRadix(run[i], radix))
    requires tail == [] || !InRadix(tail[0], radix)
    ensures DigitsEnd(input, pos, radix) == pos + |run|
    decreases |run|
  {
    Advance(input, pos, run, tail);
    if run != [] {
      assert run == [run[0]] + run[1..];
      assert run + tail == [run[0]] + (run[1..] + tail);
      Advance(input, pos, [run[0]], run[1..] + tail);
      RunEnds(input, pos + 1, run[1..], tail, radix);
    } else {
      Head(input, pos, tail);
      assert run + tail == tail;
    }
  }

  lemma {:induction false} WordRunEnds(input: Units, pos: nat, run: Units, tail: Units)
    requires Follows(input, pos, run + tail) && (forall i :: 0 <= i < |run| ==> IsUnquoted(run[i]))
    requires tail == [] || !IsUnquoted(tail[0])
    ensures WordEnd(input, pos) == pos + |run|
    decreases |run|
  {
    Advance(input, pos, run, tail);
    if run != [] {
      assert run + tail == [run[0]] + (run[1..] + tail);
      Advance(input, pos, [run[0]], run[1..] + tail);
      WordRunEnds(input, pos + 1, run[1..], tail);
    } else {
      Head(input, pos, tail);
      assert run + tail == tail;
    }
  }

  /** The printed digits of a number are one run, ended by whatever is not a digit. */
  lemma DecimalRun(input: Units, pos: nat, n: nat, tail: Units)
    requires Follows(input, pos, Decimal(n) + tail) && (tail == [] || !InRadix(tail[0], 10))
    ensures DigitsEnd(input, pos, 10) == pos + |Decimal(n)| <= |input|
    ensures input[pos..pos + |Decimal(n)|] == Decimal(n) && input[pos] == Decimal(n)[0] && !IsWhite(input[pos])
    ensures input[pos] != 95 && input[pos + |Decimal(n)| - 1] != 95 && (input[pos] == 48 <==> n == 0)
    ensures Follows(input, pos + |Decimal(n)|, tail)
  {
    hide Decimal;
    DecimalDigits(n);
    RunEnds(input, pos, Decimal(n), tail, 10);
    Advance(input, pos, Decimal(n), tail);
    assert input[pos + |Decimal(n)| - 1] == input[pos..pos + |Decimal(n)|][|Decimal(n)| - 1];
  }

  // ----- numbers -----

  datatype Literal = Literal(start: nat, end: nat, radix: nat, negative: bool, unsigned: bool, width: Option<nat>)

  function DigitOf(unit: u16): nat {
    if HexDigit(unit).Some? then HexDigit(unit).value else 0
  }

  /** The number a run of digits denotes; underscores only separate. */
  function Fold(units: Units, radix: nat): nat {
    if units == [] then 0
    else
      var n := |units| - 1;
      if units[n] == 95 then Fold(units[..n], radix) else Fold(units[..n], radix) * radix + DigitOf(units[n])
  }

  lemma {:induction false} FoldDecimal(n: nat)
    ensures Fold(Decimal(n), 10) == n
  {
    if n >= 10 {
      FoldDecimal(n / 10);
      assert Decimal(n)[..|Decimal(n)| - 1] == Decimal(n / 10);
    } else {
      assert [48 + n][..0] == [];
    }
  }

  /** What a type suffix says of the width. */
  function SuffixWidth(unit: u16): Option<nat> {
    if unit == 98 || unit == 66 then Some(8)
    else if unit == 115 || unit == 83 then Some(16)
    else if unit == 105 || unit == 73 then Some(32)
    else if unit == 108 || unit == 76 then Some(64)
    else None
  }

  predicate IsSuffix(suffix: Units) {
    suffix == [] || suffix == [98] || suffix == [66] || suffix == [115] || suffix == [76]
  }

  function WidthOf(suffix: Units): Option<nat> {
    if suffix == [] then None else SuffixWidth(suffix[0])
  }

  function MinusSign(negative: bool): Units {
    if negative then [45] else []
  }

  /** Two's-complement truncation to a width. */
  function Truncate(value: int, width: nat): int
    requires width == 8 || width == 16 || width == 32 || width == 64
  {
    if width == 8 then (var m := value % 0x100; if m < 0x80 then m else m - 0x100)
    else if width == 16 then (var m := value % 0x10000; if m < 0x8000 then m else m - 0x10000)
    else if width == 32 then WrapI32(value) else WrapI64(value)
  }

  function Half(width: nat): int
    requires width == 8 || width == 16 || width == 32 || width == 64
  {
    if width == 8 then 0x80 else if width == 16 then 0x8000 else if width == 32 then 0x8000_0000 else 0x8000_0000_0000_0000
  }

  /** The value in range that differs by whole turns. */
  lemma TruncateMeans(value: int)
    ensures -0x80 <= Truncate(value, 8) < 0x80 && Truncate(value, 8) % 0x100 == value % 0x100
    ensures -0x8000 <= Truncate(value, 16) < 0x8000 && Truncate(value, 16) % 0x1_0000 == value % 0x1_0000
    ensures Truncate(value, 32) % TWO_32 == value % TWO_32 && Truncate(value, 64) % TWO_64 == value % TWO_64
  {
    WrapMeans(value);
    hide WrapI32, WrapI64;
  }

  lemma TruncateSmall(value: int, width: nat)
    requires width == 8 || width == 16 || width == 32 || width == 64
    ensures -Half(width) <= Truncate(value, width) < Half(width)
    ensures -Half(width) <= value < Half(width) ==> Truncate(value, width) == value
  {
    if width == 8 {
      Modulus(value, 0x100);
    } else if width == 16 {
      Modulus(value, 0x10000);
    } else if width == 32 {
      Modulus(value, 0x1_0000_0000);
    } else {
      Modulus(value, 0x1_0000_0000_0000_0000);
    }
  }

  lemma Modulus(value: int, m: int)
    requires m > 0
    ensures 0 <= value % m < m
    ensures 0 <= value < m ==> value % m == value
    ensures -m <= value < 0 ==> value % m == value + m
  {
    if -m <= value < 0 {
      ModulusIs(value, m, -1, value + m);
    } else if 0 <= value < m {
      ModulusIs(value, m, 0, value);
    }
  }

  lemma ModulusIs(value: int, m: int, q: int, r: int)
    requires m > 0 && value == m * q + r && 0 <= r < m
    ensures value % m == r
  {
    var d := value / m - q;
    assert value == m * (value / m) + value % m;
    assert m * d == r - value % m;
    Multiple(m, d);
  }

  lemma Multiple(m: int, d: int)
    requires m > 0
    ensures (d >= 1 ==> m * d >= m) && (d <= -1 ==> m * d <= -m)
  {
    if d >= 1 {
      assert m * d == m + m * (d - 1);
    } else if d <= -1 {
      assert m * d == -m + m * (d + 1);
    }
  }

  class Scanner {
    const input: Units
    const limits: SnbtLimits
    const names: Units -> Option<nat>
    var pos: nat

    constructor (input: Units, limits: SnbtLimits, names: Units -> Option<nat>)
      ensures Valid() && this.input == input && this.limits == limits && pos == 0
    {
      this.input, this.limits, this.names, pos := input, limits, names, 0;
    }

    ghost predicate Valid()
      reads `pos
    {
      pos <= |input|
    }

    method Space()
      requires Valid()
      modifies `pos
      ensures Valid() && pos == SpaceEnd(input, old(pos))
    {
      while pos < |input| && IsWhite(input[pos])
        invariant Valid() && SpaceEnd(input, pos) == SpaceEnd(input, old(pos))
        decreases |input| - pos
      {
        pos := pos + 1;
      }
    }

    function Peek(): Option<u16>
      reads `pos
    {
      if pos < |input| then Some(input[pos]) else None
    }

    /** Skips space and one given unit, or nothing at all. */
    method Eat(unit: u16) returns (r: bool)
      requires Valid()
      modifies `pos
      ensures Valid()
      ensures var e := SpaceEnd(input, old(pos)); r == (e < |input| && input[e] == unit) && pos == if r then e + 1 else old(pos)
    {
      var original := pos;
      Space();
      r := Peek() == Some(unit);
      pos := if r then pos + 1 else original;
    }

    method EatPair(first: u16, second: u16) returns (r: bool)
      requires Valid()
      modifies `pos
      ensures Valid()
      ensures var e := SpaceEnd(input, old(pos));
        r == (e < |input| && (input[e] == first || input[e] == second)) && pos == if r then e + 1 else old(pos)
    {
      var original := pos;
      Space();
      r := Peek() == Some(first) || Peek() == Some(second);
      pos := if r then pos + 1 else original;
    }

    method Expect(unit: u16) returns (r: Result<(), SnbtError>)
      requires Valid()
      modifies `pos
      ensures Valid()
      ensures var e := SpaceEnd(input, old(pos));
        if e < |input| && input[e] == unit then r == Ok(()) && pos == e + 1 else r == Err(Syntax) && pos == e
    {
      Space();
      if Peek() != Some(unit) {
        return Err(Syntax);
      }
      pos := pos + 1;
      r := Ok(());
    }

    method Word() returns (r: Result<(nat, nat), SnbtError>)
      requires Valid()
      modifies `pos
      ensures Valid()
      ensures var s := SpaceEnd(input, old(pos));
        var e := WordEnd(input, s);
        pos == e && r == if e == s then Err(Syntax) else Ok((s, e))
    {
      Space();
      var start := pos;
      while pos < |input| && IsUnquoted(input[pos])
        invariant Valid() && start <= pos && WordEnd(input, pos) == WordEnd(input, start)
        decreases |input| - pos
      {
        pos := pos + 1;
      }
      r := if start == pos then Err(Syntax) else Ok((start, pos));
    }

    method Sign() returns (negative: bool)
      requires Valid()
      modifies `pos
      ensures Valid() && pos >= old(pos)
      ensures var e := SpaceEnd(input, old(pos));
        negative == (e < |input| && input[e] == 45) && (negative ==> pos == e + 1) && (e == |input| || (input[e] != 43 && input[e] != 45) ==> pos == old(pos))
    {
      var plus := Eat(43);
      if plus {
        return false;
      }
      negative := Eat(45);
    }

    /** A run of digits that neither starts nor ends with an underscore. */
    method Digits(radix: nat) returns (r: Result<(nat, nat), SnbtError>)
      requires Valid()
      modifies `pos
      ensures Valid()
      ensures var s := SpaceEnd(input, old(pos));
        var e := DigitsEnd(input, s, radix);
        pos == e && r == if e == s || input[s] == 95 || input[e - 1] == 95 then Err(Syntax) else Ok((s, e))
    {
      Space();
      var start := pos;
      while pos < |input| && InRadix(input[pos], radix)
        invariant Valid() && start <= pos && DigitsEnd(input, pos, radix) == DigitsEnd(input, start, radix)
        decreases |input| - pos
      {
        pos := pos + 1;
      }
      r := if pos == start || input[start] == 95 || input[pos - 1] == 95 then Err(Syntax) else Ok((start, pos));
    }

    method TypeSuffix() returns (r: Option<nat>)
      requires Valid()
      modifies `pos
      ensures Valid()
      ensures var e := SpaceEnd(input, old(pos));
        r == (if e < |input| then SuffixWidth(input[e]) else None) && pos == if r.Some? then e + 1 else old(pos)
    {
      var found := EatPair(98, 66);
      if found {
        return Some(8);
      }
      found := EatPair(115, 83);
      if found {
        return Some(16);
      }
      found := EatPair(105, 73);
      if found {
        return Some(32);
      }
      found := EatPair(108, 76);
      r := if found then Some(64) else None;
    }

    /** Digits after a leading zero: a hexadecimal or binary run, nothing, or an error. */
    method AfterZero(start: nat, ghost suffix: Units, ghost rest: Units) returns (r: Result<(nat, nat, nat), SnbtError>)
      requires Valid() && start <= pos
      modifies `pos
      ensures Valid() && pos >= old(pos) && (r.Ok? ==> r.value.0 == 2 || r.value.0 == 10 || r.value.0 == 16)
      ensures r.Ok? ==> r.value.1 <= r.value.2 <= pos
      ensures Follows(input, old(pos), suffix + rest) && IsSuffix(suffix) && Ends(rest) ==> r == Ok((10, start, old(pos))) && pos == old(pos)
    {
      var after := pos;
      if Follows(input, pos, suffix + rest) && IsSuffix(suffix) && Ends(rest) {
        SuffixAhead(input, pos, suffix, rest);
      }
      var hex := EatPair(120, 88);
      if hex {
        var digits := Digits(16);
        r := if digits.Err? then Err(digits.error) else Ok((16, digits.value.0, digits.value.1));
        return;
      }
      var binary := EatPair(98, 66);
      if binary {
        var digits := Digits(2);
        if digits.Ok? {
          return Ok((2, digits.value.0, digits.value.1));
        }
      }
      pos := after;
      var extra := Digits(10);
      if extra.Ok? {
        return Err(Syntax);
      }
      pos := after;
      r := Ok((10, start, after));
    }

    /** An integer literal. A printed one is read back with its sign, digits and suffix. */
    method Integer(ghost negative: bool, ghost n: nat, ghost suffix: Units, ghost rest: Units) returns (r: Result<Literal, SnbtError>)
      requires Valid()
      modifies `pos
      ensures Valid() && pos >= old(pos)
      ensures r.Ok? ==> r.value.start <= r.value.end <= |input| && (r.value.width.Some? ==> r.value.width.value in {8, 16, 32, 64})
      ensures r.Ok? ==> pos > old(pos) && r.value.radix > 0
      ensures PrintedNumber(input, old(pos), negative, n, suffix, rest) ==>
        && r.Ok? && r.value.start <= r.value.end <= |input| && input[r.value.start..r.value.end] == Decimal(n)
        && r.value.radix == 10 && r.value.negative == negative && !r.value.unsigned && r.value.width == WidthOf(suffix)
        && Follows(input, pos, rest)
    {
      hide *;
      ghost var printed := PrintedNumber(input, pos, negative, n, suffix, rest);
      if printed {
        NumberAhead(input, pos, negative, n, suffix, rest);
      }
      var minus := Sign();
      Space();
      var start := pos;
      var zero := Eat(48);
      var radix, digits;
      if zero {
        var after := AfterZero(start, suffix, rest);
        if after.Err? {
          return Err(after.error);
        }
        radix, digits := after.value.0, (after.value.1, after.value.2);
      } else {
        var run := Digits(10);
        if run.Err? {
          return Err(run.error);
        }
        radix, digits := 10, run.value;
      }
      var unsigned, width := Suffix(radix != 10, suffix, rest);
      r := Ok(Literal(digits.0, digits.1, radix, minus, unsigned, width));
    }

    /** An optional sign letter and type letter; a lone letter is a type. */
    method Suffix(plain: bool, ghost suffix: Units, ghost rest: Units) returns (unsigned: bool, width: Option<nat>)
      requires Valid()
      modifies `pos
      ensures Valid() && pos >= old(pos) && (width.Some? ==> width.value in {8, 16, 32, 64})
      ensures Follows(input, old(pos), suffix + rest) && IsSuffix(suffix) && Ends(rest) ==>
        unsigned == plain && width == WidthOf(suffix) && Follows(input, pos, rest)
    {
      hide InRadix, IsWhite, Follows;
      if Follows(input, pos, suffix + rest) && IsSuffix(suffix) && Ends(rest) {
        SuffixAhead(input, pos, suffix, rest);
      }
      var at := pos;
      unsigned := plain;
      var u := EatPair(117, 85);
      var s := false;
      if !u {
        s := EatPair(115, 83);
      }
      width := TypeSuffix();
      if u || s {
        if width.Some? {
          unsigned := u;
        } else {
          pos := at;
          width := TypeSuffix();
        }
      }
    }

    /** The digits' value, if it fits an unsigned 64-bit word. */
    method Magnitude(literal: Literal) returns (r: Option<nat>)
      requires literal.start <= literal.end <= |input| && literal.radix > 0
      ensures var v := Fold(input[literal.start..literal.end], literal.radix); r == if v < TWO_64 then Some(v) else None
    {
      var units := input[literal.start..literal.end];
      var v: nat := 0;
      for i := 0 to |units|
        invariant v == Fold(units[..i], literal.radix) < TWO_64
      {
        assert units[..i + 1][..i] == units[..i];
        FoldGrows(units, i + 1, literal.radix);
        if units[i] != 95 {
          if v * literal.radix + DigitOf(units[i]) >= TWO_64 {
            return None;
          }
          v := v * literal.radix + DigitOf(units[i]);
        }
      }
      assert units[..|units|] == units;
      r := Some(v);
    }

    /** The value of a literal at a width; a sign excludes unsigned literals, and range is checked before truncation. */
    method IntegerValue(literal: Literal, width: nat, ghost n: nat) returns (r: Result<int, SnbtError>)
      requires literal.start <= literal.end <= |input| && literal.radix > 0 && width in {8, 16, 32, 64}
      ensures r.Ok? ==> -Half(width) <= r.value < Half(width)
      ensures var v := Fold(input[literal.start..literal.end], literal.radix);
        && ((literal.negative && literal.unsigned) || v > Limit(literal, width) <==> r.Err?) && (r.Err? ==> r.error == NumberRange)
        && (r.Ok? && !literal.unsigned ==> r.value == if literal.negative then 0 - v else v)
        && (r.Ok? && literal.unsigned ==> r.value == Truncate(v, width))
      ensures literal.radix == 10 && !literal.unsigned && input[literal.start..literal.end] == Decimal(n) && n <= Limit(literal, width) ==>
        r == Ok(if literal.negative then 0 - n else n)
    {
      hide Fold, Decimal, Truncate;
      FoldDecimal(n);
      if literal.negative && literal.unsigned {
        return Err(NumberRange);
      }
      var value := Magnitude(literal);
      if value.None? || value.value > Limit(literal, width) {
        return Err(NumberRange);
      }
      var signed: int := if literal.negative then 0 - value.value else value.value;
      TruncateSmall(signed, width);
      r := Ok(Truncate(signed, width));
    }

    /** An optional exponent; anything else rewinds. */
    method Exponent() returns (r: Option<(bool, nat, nat)>)
      requires Valid()
      modifies `pos
      ensures Valid() && pos >= old(pos) && (r.Some? ==> r.value.1 <= r.value.2 <= |input|)
      ensures r.None? ==> pos == old(pos)
      ensures var e := SpaceEnd(input, old(pos)); !(e < |input| && (input[e] == 101 || input[e] == 69)) ==> r.None?
    {
      var start := pos;
      var found := EatPair(101, 69);
      if found {
        var negative := Sign();
        var digits := Digits(10);
        if digits.Ok? {
          return Some((negative, digits.value.0, digits.value.1));
        }
      }
      pos := start;
      r := None;
    }

    /** The normalized text of a floating-point literal. A printed integer is never one. */
    method Float(ghost minus: bool, ghost n: nat, ghost suffix: Units, ghost rest: Units) returns (r: Result<FloatText, SnbtError>)
      requires Valid()
      modifies `pos
      ensures Valid() && pos >= old(pos) && (r.Ok? ==> pos > old(pos)) && (r.Err? ==> r.error == Syntax)
      ensures PrintedNumber(input, old(pos), minus, n, suffix, rest) ==> r.Err?
    {
      hide *;
      if PrintedNumber(input, pos, minus, n, suffix, rest) {
        NumberAhead(input, pos, minus, n, suffix, rest);
        SuffixAhead(input, pos + |MinusSign(minus)| + |Decimal(n)|, suffix, rest);
      }
      var negative := Sign();
      var whole := Whole();
      var fraction := Fraction(whole.Some?);
      if fraction.Err? || (whole.None? && fraction.value.None?) {
        return Err(Syntax);
      }
      var exponent := Exponent();
      var f := EatPair(102, 70);
      var d := false;
      if !f {
        d := EatPair(100, 68);
      }
      if fraction.value.None? && exponent.None? && !f && !d {
        return Err(Syntax);
      }
      r := Ok(FloatText(Normalized(input, negative, whole, fraction.value, exponent), f));
    }

    method Whole() returns (r: Option<(nat, nat)>)
      requires Valid()
      modifies `pos
      ensures Valid() && pos >= old(pos) && (r.Some? ==> pos > old(pos) && r.value.0 <= r.value.1 <= |input|) && (r.None? ==> pos == old(pos))
      ensures var s := SpaceEnd(input, old(pos));
        var e := DigitsEnd(input, s, 10);
        e > s && input[s] != 95 && input[e - 1] != 95 ==> pos == e
    {
      var start := pos;
      var whole := Digits(10);
      if whole.Err? {
        pos := start;
        return None;
      }
      r := Some(whole.value);
    }

    /** The part after a dot, which may be empty if there is a whole part. */
    method Fraction(whole: bool) returns (r: Result<Option<(nat, nat)>, SnbtError>)
      requires Valid()
      modifies `pos
      ensures Valid() && pos >= old(pos) && (r.Ok? && r.value.Some? ==> pos > old(pos) && r.value.value.0 <= r.value.value.1 <= |input|)
      ensures var e := SpaceEnd(input, old(pos)); !(e < |input| && input[e] == 46) ==> r == Ok(None) && pos == old(pos)
    {
      var dot := Eat(46);
      if !dot {
        return Ok(None);
      }
      var start := pos;
      var digits := Digits(10);
      if digits.Ok? {
        return Ok(Some(digits.value));
      }
      if !whole {
        return Err(Syntax);
      }
      pos := start;
      r := Ok(Some((start, start)));
    }

    // ----- strings -----

    /** So many hexadecimal digits. */
    method HexRun(count: nat) returns (r: Result<nat, SnbtError>)
      requires Valid()
      modifies `pos
      ensures Valid() && pos >= old(pos) && (r.Err? ==> r.error == InvalidEscape)
      ensures count == 2 && old(pos) + 2 <= |input| && HexDigit(input[old(pos)]).Some? && HexDigit(input[old(pos) + 1]).Some? ==>
        r == Ok(16 * HexDigit(input[old(pos)]).value + HexDigit(input[old(pos) + 1]).value) && pos == old(pos) + 2
    {
      var start := pos;
      var code: nat := 0;
      for i := 0 to count
        invariant Valid() && pos == start + i
        invariant i == 1 ==> HexDigit(input[start]).Some? && code == HexDigit(input[start]).value
        invariant i == 2 ==> HexDigit(input[start]).Some? && HexDigit(input[start + 1]).Some?
                             && code == 16 * HexDigit(input[start]).value + HexDigit(input[start + 1]).value
        invariant i == 0 ==> code == 0
      {
        if pos == |input| || HexDigit(input[pos]).None? {
          return Err(InvalidEscape);
        }
        code := code * 16 + HexDigit(input[pos]).value;
        pos := pos + 1;
      }
      r := Ok(code);
    }

    /** What an escape stands for, the backslash already taken; space may come before its letter. */
    method Escape(ghost unit: u16, ghost quote: u16, ghost rest: Units) returns (r: Result<nat, SnbtError>)
      requires Valid()
      modifies `pos
      ensures Valid() && pos >= old(pos) && (r.Ok? ==> r.value <= 0x10ffff)
      ensures |Escaped(unit, quote)| >= 2 && (quote == QUOTE || quote == APOSTROPHE) && Follows(input, old(pos), Escaped(unit, quote)[1..] + rest) ==>
        r == Ok(unit) && Follows(input, pos, rest)
    {
      hide Follows, HexDigit;
      ghost var printed := |Escaped(unit, quote)| >= 2 && (quote == QUOTE || quote == APOSTROPHE) && Follows(input, pos, Escaped(unit, quote)[1..] + rest);
      if printed {
        EscapeAhead(input, pos, unit, quote, rest);
      }
      Space();
      if pos == |input| {
        return Err(InvalidEscape);
      }
      var escape := input[pos];
      pos := pos + 1;
      if escape == 98 {
        return Ok(8);
      } else if escape == 115 {
        return Ok(32);
      } else if escape == 116 {
        return Ok(9);
      } else if escape == 110 {
        return Ok(10);
      } else if escape == 102 {
        return Ok(12);
      } else if escape == 114 {
        return Ok(13);
      } else if escape == 92 || escape == 39 || escape == 34 {
        return Ok(escape);
      } else if escape == 120 || escape == 117 || escape == 85 {
        r := HexRun(if escape == 120 then 2 else if escape == 117 then 4 else 8);
        if r.Ok? && r.value > 0x10ffff {
          r := Err(InvalidCodePoint);
        }
      } else if escape == 78 {
        r := Named();
      } else {
        pos := pos - 1;
        r := Err(InvalidEscape);
      }
    }

    /** A character by its Unicode name, in braces. */
    method Named() returns (r: Result<nat, SnbtError>)
      requires Valid()
      modifies `pos
      ensures Valid() && pos >= old(pos) && (r.Ok? ==> r.value <= 0x10ffff)
    {
      var open := Expect(123);
      if open.Err? {
        return Err(open.error);
      }
      var start := pos;
      while pos < |input| && IsNameUnit(input[pos])
        invariant Valid() && pos >= start
        decreases |input| - pos
      {
        pos := pos + 1;
      }
      if start == pos {
        return Err(InvalidCharacterName);
      }
      var end := pos;
      var close := Expect(125);
      if close.Err? {
        return Err(close.error);
      }
      var code := names(input[start..end]);
      r := if code.None? || code.value > 0x10ffff then Err(InvalidCharacterName) else Ok(code.value);
    }

    /** A quoted string; a printed one gives its units back and leaves what follows. */
    method Quoted(ghost want: Units, ghost rest: Units) returns (r: Result<Units, SnbtError>)
      requires Valid()
      modifies `pos
      ensures Valid() && pos >= old(pos) && (r.Ok? ==> pos > old(pos))
      ensures Follows(input, old(pos), QuotedText(want) + rest) ==> r == Ok(want) && Follows(input, pos, rest)
    {
      hide Follows, Body, QuoteFor, Escaped, QuotedText, CodeUnits;
      ghost var printed := Follows(input, pos, QuotedText(want) + rest);
      ghost var close := QuoteFor(want);
      if printed {
        QuotedAhead(input, pos, want, rest);
      }
      if pos >= |input| {
        return Err(Syntax);
      }
      var quote := input[pos];
      pos := pos + 1;
      var units: Units := [];
      ghost var start := pos;
      assert want[0..] == want && want[..0] == [];
      while true
        invariant Valid() && pos >= start
        invariant printed ==> quote == close && |units| <= |want| && units == want[..|units|]
                              && Follows(input, pos, Body(want[|units|..], quote) + ([quote] + rest))
        decreases |input| - pos
      {
        ghost var k := |units|;
        if printed {
          BodyAhead(input, pos, want, k, quote, rest);
        }
        if pos >= |input| {
          return Err(Syntax);
        }
        var unit := input[pos];
        pos := pos + 1;
        if unit == quote {
          return Ok(units);
        }
        if unit != 92 {
          units := units + [unit];
        } else {
          var code := Escape(if printed && k < |want| then want[k] else 0, quote, if printed && k < |want| then Body(want[k + 1..], quote) + ([quote] + rest) else []);
          if code.Err? {
            return Err(code.error);
          }
          units := units + CodeUnits(code.value);
        }
        if printed {
          TakeOne(want, k);
        }
      }
    }
  }

  datatype FloatText = FloatText(text: Units, single: bool)

  function DigitUnits(units: Units): Units {
    if units == [] then []
    else if units[0] == 95 then DigitUnits(units[1..]) else [units[0]] + DigitUnits(units[1..])
  }

  /** The digits of a floating-point literal without separators, as its value is parsed. */
  function Normalized(input: Units, negative: bool, whole: Option<(nat, nat)>, fraction: Option<(nat, nat)>, exponent: Option<(bool, nat, nat)>): Units
    requires whole.Some? ==> whole.value.0 <= whole.value.1 <= |input|
    requires fraction.Some? ==> fraction.value.0 <= fraction.value.1 <= |input|
    requires exponent.Some? ==> exponent.value.1 <= exponent.value.2 <= |input|
  {
    MinusSign(negative) + (if whole.Some? then DigitUnits(input[whole.value.0..whole.value.1]) else [])
    + (if fraction.Some? then [46] + DigitUnits(input[fraction.value.0..fraction.value.1]) else [])
    + (if exponent.Some? then [101] + MinusSign(exponent.value.0) + DigitUnits(input[exponent.value.1..exponent.value.2]) else [])
  }

  /** One unit, or a surrogate pair. */
  function CodeUnits(code: nat): (r: Units)
    requires code <= 0x10ffff
    ensures code <= 0xffff ==> r == [code]
  {
    if code <= 0xffff then [code] else [0xd800 + (code - 0x10000) / 1024, 0xdc00 + (code - 0x10000) % 1024]
  }

  function Limit(literal: Literal, width: nat): int
    requires width in {8, 16, 32, 64}
  {
    if literal.unsigned then 2 * Half(width) - 1 else Half(width) - if literal.negative then 0 else 1
  }

  /** The widest magnitudes of a literal. */
  lemma LimitMeans(literal: Literal)
    ensures literal.unsigned ==> Limit(literal, 8) == 255 && Limit(literal, 16) == 65535 && Limit(literal, 32) == 4294967295
    ensures !literal.unsigned && !literal.negative ==> Limit(literal, 8) == 127 && Limit(literal, 16) == 32767 && Limit(literal, 32) == 2147483647
    ensures !literal.unsigned && literal.negative ==> Limit(literal, 8) == 128 && Limit(literal, 16) == 32768 && Limit(literal, 32) == 2147483648
    ensures Limit(literal, 64) == if literal.unsigned then 18446744073709551615 else if literal.negative then 9223372036854775808 else 9223372036854775807
  {
  }

  lemma {:induction false} FoldGrows(units: Units, i: nat, radix: nat)
    requires i <= |units| && radix > 0
    ensures Fold(units[..i], radix) <= Fold(units, radix)
    decreases |units| - i
  {
    if i < |units| {
      FoldGrows(units, i + 1, radix);
      assert units[..i + 1][..i] == units[..i];
      Scaled(Fold(units[..i], radix), radix);
    } else {
      assert units[..i] == units;
    }
  }

  lemma Scaled(v: nat, radix: nat)
    requires radix > 0
    ensures v <= v * radix
  {
    assert v * radix == v + v * (radix - 1);
  }

  lemma QuotedAhead(input: Units, pos: nat, want: Units, rest: Units)
    requires Follows(input, pos, QuotedText(want) + rest)
    ensures var quote := QuoteFor(want);
      pos < |input| && input[pos] == quote && (quote == QUOTE || quote == APOSTROPHE)
      && Follows(input, pos + 1, Body(want, quote) + ([quote] + rest))
  {
    hide Body, QuoteFor;
    QuoteIsQuote(want);
    var quote := QuoteFor(want);
    assert QuotedText(want) + rest == [quote] + (Body(want, quote) + ([quote] + rest));
    Advance(input, pos, [quote], Body(want, quote) + ([quote] + rest));
  }

  /** Inside a printed string: its end, a plain unit, or a backslash and the rest of an escape. */
  lemma BodyAhead(input: Units, pos: nat, want: Units, k: nat, quote: u16, rest: Units)
    requires k <= |want| && Follows(input, pos, Body(want[k..], quote) + ([quote] + rest))
    ensures pos < |input|
    ensures k == |want| ==> want[..k] == want && input[pos] == quote && Follows(input, pos + 1, rest)
    ensures k < |want| ==>
      var text, tail := Escaped(want[k], quote), Body(want[k + 1..], quote) + ([quote] + rest);
      && (|text| == 1 ==> input[pos] == want[k] && want[k] != quote && want[k] != 92 && Follows(input, pos + 1, tail))
      && (|text| >= 2 ==> input[pos] == 92 && quote != 92 ==> Follows(input, pos + 1, text[1..] + tail))
      && (|text| >= 2 ==> input[pos] == 92) && |text| >= 1
  {
    hide Escaped;
    if k == |want| {
      assert Body(want[k..], quote) + ([quote] + rest) == [quote] + rest;
      Advance(input, pos, [quote], rest);
    } else {
      assert want[k..][1..] == want[k + 1..];
      EscapedShape(want[k], quote);
      BodyStep(input, pos, Escaped(want[k], quote), Body(want[k + 1..], quote), [quote] + rest);
    }
  }

  lemma EscapedShape(unit: u16, quote: u16)
    ensures |Escaped(unit, quote)| >= 1
    ensures |Escaped(unit, quote)| == 1 ==> Escaped(unit, quote)[0] == unit != quote && unit != 92
    ensures |Escaped(unit, quote)| >= 2 ==> Escaped(unit, quote)[0] == 92
  {
  }

  lemma BodyStep(input: Units, pos: nat, text: Units, more: Units, tail: Units)
    requires text != [] && Follows(input, pos, text + more + tail)
    ensures pos < |input| && input[pos] == text[0] && Follows(input, pos + 1, text[1..] + (more + tail))
    ensures |text| == 1 ==> Follows(input, pos + 1, more + tail)
  {
    assert text + more + tail == [text[0]] + (text[1..] + (more + tail));
    Advance(input, pos, [text[0]], text[1..] + (more + tail));
    if |text| == 1 {
      assert text[1..] + (more + tail) == more + tail;
    }
  }

  lemma TakeOne(want: Units, k: nat)
    ensures k < |want| ==> want[..k + 1] == want[..k] + [want[k]]
  {
  }

  /** What a printed escape looks like after its backslash. */
  lemma EscapeAhead(input: Units, pos: nat, unit: u16, quote: u16, rest: Units)
    requires |Escaped(unit, quote)| >= 2 && (quote == QUOTE || quote == APOSTROPHE)
    requires Follows(input, pos, Escaped(unit, quote)[1..] + rest)
    ensures SpaceEnd(input, pos) == pos < |input| && input[pos] == Escaped(unit, quote)[1]
    ensures |Escaped(unit, quote)| == 2 ==> Follows(input, pos + 1, rest)
    ensures |Escaped(unit, quote)| > 2 ==>
      && input[pos] == 120 && pos + 3 <= |input| && HexDigit(input[pos + 1]) == Some(unit / 16) && HexDigit(input[pos + 2]) == Some(unit % 16)
      && Follows(input, pos + 3, rest)
  {
    var text := Escaped(unit, quote)[1..];
    Advance(input, pos, text, rest);
    if |text| == 3 {
      assert input[pos + 1] == input[pos..pos + 3][1] && input[pos + 2] == input[pos..pos + 3][2];
    }
  }

  /** A printed number, its suffix, and what follows it. */
  ghost predicate PrintedNumber(input: Units, pos: nat, negative: bool, n: nat, suffix: Units, rest: Units) {
    Follows(input, pos, MinusSign(negative) + (Decimal(n) + (suffix + rest))) && IsSuffix(suffix) && Ends(rest)
  }

  /** Neither space, digit nor radix prefix follows a printed number's digits. */
  lemma SuffixAhead(input: Units, pos: nat, suffix: Units, rest: Units)
    requires Follows(input, pos, suffix + rest) && IsSuffix(suffix) && Ends(rest)
    ensures SpaceEnd(input, pos) == pos && pos + |suffix| <= |input| && SpaceEnd(input, pos + |suffix|) == pos + |suffix|
    ensures Follows(input, pos + |suffix|, rest)
    ensures pos < |input| ==> !InRadix(input[pos], 10) && input[pos] !in {120, 88, 117, 85, 46, 101, 69, 102, 70, 100, 68}
    ensures pos + |suffix| < |input| ==> var c := input[pos + |suffix|]; !InRadix(c, 2) && !InRadix(c, 10) && SuffixWidth(c) == None
    ensures suffix == [] && pos < |input| ==> SuffixWidth(input[pos]) == None && input[pos] !in {98, 66, 115, 83}
    ensures suffix != [] ==> pos < |input| && input[pos] == suffix[0]
  {
    Advance(input, pos, suffix, rest);
    Head(input, pos + |suffix|, rest);
  }

  lemma NumberAhead(input: Units, pos: nat, negative: bool, n: nat, suffix: Units, rest: Units)
    requires PrintedNumber(input, pos, negative, n, suffix, rest)
    ensures var digits := pos + |MinusSign(negative)|;
      && SpaceEnd(input, pos) == pos < |input| && digits + |Decimal(n)| <= |input|
      && SpaceEnd(input, digits) == digits < |input| && input[digits] != 43 && input[digits] != 45 && input[digits] != 95
      && (negative ==> input[pos] == 45) && (!negative ==> input[pos] != 45 && input[pos] != 43)
      && (input[digits] == 48 <==> n == 0) && (n == 0 ==> |Decimal(n)| == 1)
      && DigitsEnd(input, digits, 10) == digits + |Decimal(n)| && input[digits..digits + |Decimal(n)|] == Decimal(n)
      && input[digits + |Decimal(n)| - 1] != 95
      && Follows(input, digits + |Decimal(n)|, suffix + rest) && IsSuffix(suffix) && Ends(rest)
      && digits == pos + (if negative then 1 else 0)
  {
    hide Decimal, Follows, DigitsEnd;
    NumberParts(input, pos, negative, n, suffix, rest);
    var digits := pos + |MinusSign(negative)|;
    TailStops(suffix, rest);
    DecimalRun(input, digits, n, suffix + rest);
    DecimalDigits(n);
    SolidAt(input, digits);
    SolidAt(input, pos);
  }

  lemma SolidAt(input: Units, pos: nat)
    requires pos < |input| && !IsWhite(input[pos])
    ensures SpaceEnd(input, pos) == pos
  {
  }

  lemma NumberParts(input: Units, pos: nat, negative: bool, n: nat, suffix: Units, rest: Units)
    requires PrintedNumber(input, pos, negative, n, suffix, rest)
    ensures IsSuffix(suffix) && Ends(rest) && pos + |MinusSign(negative)| <= |input|
    ensures Follows(input, pos + |MinusSign(negative)|, Decimal(n) + (suffix + rest))
    ensures negative ==> pos < |input| && input[pos] == 45
  {
    hide Decimal, Follows;
    Advance(input, pos, MinusSign(negative), Decimal(n) + (suffix + rest));
  }

  lemma TailStops(suffix: Units, rest: Units)
    requires IsSuffix(suffix) && Ends(rest)
    ensures suffix + rest == [] || !InRadix((suffix + rest)[0], 10)
  {
  }
}
