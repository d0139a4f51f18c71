/** Columns of a stored heightmap: bit fields of arbitrary words, padding bits and all. */
module HeightColumns {
  import opened World
  import opened PackedWords

  const COLUMNS: nat := 256

  /** Words for every column; nothing is assumed of the bits, which may come from storage. */
  ghost predicate Shaped(words: seq<u64>, bits: nat) {
    1 <= bits <= 31 && |words| == ColumnWords(bits)
  }

  function ColumnWords(bits: nat): nat
    requires 1 <= bits <= 31
  {
    PerWordFacts(bits);
    WordCount(bits, COLUMNS)
  }

  lemma WordInRange(bits: nat, i: nat)
    requires 1 <= bits <= 31 && i < COLUMNS
    ensures WordIndex(i, bits) < ColumnWords(bits)
  {
    PerWordFacts(bits);
    var per := 64 / bits;
    DivisionParts(i, per);
    DivisionParts(COLUMNS + per - 1, per);
    var q, n := i / per, (COLUMNS + per - 1) / per;
    if q >= n {
      MulMonotone(per, n, q);
    }
  }

  /** The `k`th field of a word. */
  function Field(word: nat, bits: nat, k: nat): nat {
    PowPositive(2, k * bits);
    PowPositive(2, bits);
    word / Pow(2, k * bits) % Pow(2, bits)
  }

  lemma FieldIs(word: nat, bits: nat, k: nat)
    ensures Pow(2, k * bits) > 0 && Pow(2, bits) > 0 && Field(word, bits, k) == word / Pow(2, k * bits) % Pow(2, bits)
  {
    PowPositive(2, k * bits);
    PowPositive(2, bits);
  }

  /** Masks one field out and stores another value. */
  function WithField(word: nat, bits: nat, k: nat, value: nat): int {
    Stored0(word, Field(word, bits, k), value, Pow(2, k * bits))
  }

  function Stored0(word: nat, previous: nat, value: nat, scale: nat): int {
    word - previous * scale + value * scale
  }

  function Column(words: seq<u64>, bits: nat, i: nat): nat
    requires Shaped(words, bits) && i < COLUMNS
  {
    WordInRange(bits, i);
    Field(words[WordIndex(i, bits)], bits, DigitIndex(i, bits))
  }

  /** With `per` columns to a word, column `k` of word `w` is the word's `k`th field from the low end. */
  lemma ColumnIsField(words: seq<u64>, bits: nat, per: nat, w: nat, k: nat)
    requires Shaped(words, bits) && per == 64 / bits && k < per && w * per + k < COLUMNS
    ensures w < |words| && Pow(2, k * bits) > 0 && Pow(2, bits) > 0
    ensures Column(words, bits, w * per + k) == words[w] / Pow(2, k * bits) % Pow(2, bits)
  {
    hide Pow, Field, ColumnWords;
    var i := w * per + k;
    WordInRange(bits, i);
    QuotientIs(i, per, w, k);
    assert WordIndex(i, bits) == w && DigitIndex(i, bits) == k;
    FieldIs(words[w], bits, k);
    PowPositive(2, k * bits);
    PowPositive(2, bits);
  }

  function SetColumn(words: seq<u64>, bits: nat, i: nat, value: nat): (r: seq<u64>)
    requires Shaped(words, bits) && i < COLUMNS && value < Pow(2, bits)
    ensures Shaped(r, bits)
  {
    WordInRange(bits, i);
    PositionFacts(i, bits);
    FieldFits(words[WordIndex(i, bits)], bits, DigitIndex(i, bits), value);
    words[WordIndex(i, bits) := WithField(words[WordIndex(i, bits)], bits, DigitIndex(i, bits), value)]
  }

  // ----- any word is its fields and its padding -----

  ghost function Quotient(n: nat, m: nat): nat
    requires m > 0
  {
    n / m
  }

  ghost function Remainder(n: nat, m: nat): (r: nat)
    requires m > 0
    ensures r < m
  {
    n % m
  }

  ghost function Digits(word: nat, base: nat, n: nat): (r: seq<nat>)
    requires base > 0
    ensures |r| == n
    decreases n
  {
    hide Quotient, Remainder;
    if n == 0 then [] else [Remainder(word, base)] + Digits(Quotient(word, base), base, n - 1)
  }

  lemma QuotientParts(n: nat, m: nat)
    requires m > 0
    ensures n == m * Quotient(n, m) + Remainder(n, m)
  {
    DivisionParts(n, m);
  }

  lemma {:induction false} DigitsWord(word: nat, base: nat, n: nat)
    requires base > 0 && word < Pow(base, n)
    ensures AllBelow(Digits(word, base, n), base) && Word(Digits(word, base, n), base) == word
  {
    hide Quotient, Remainder;
    if n > 0 {
      QuotientParts(word, base);
      var rest := Quotient(word, base);
      if rest >= Pow(base, n - 1) {
        MulMonotone(base, Pow(base, n - 1), rest);
      }
      DigitsWord(rest, base, n - 1);
      var digits := Digits(word, base, n);
      assert digits[1..] == Digits(rest, base, n - 1);
    }
  }

  /** One digit more than a word holds covers every 64-bit word. */
  lemma WordHasDigits(word: u64, bits: nat)
    requires 1 <= bits <= 31
    ensures var base, n := Pow(2, bits), 64 / bits + 1;
      base > 0 && AllBelow(Digits(word, base, n), base) && Word(Digits(word, base, n), base) == word
  {
    var base, n := Pow(2, bits), 64 / bits + 1;
    PowPositive(2, bits);
    PowMul(bits, n);
    DivisionParts(64, bits);
    assert bits * n == bits * (64 / bits) + bits;
    PowGrows(64, n * bits);
    Pow64();
    DigitsWord(word, base, n);
  }

  lemma FieldIsDigit(digits: seq<nat>, bits: nat, k: nat)
    requires k < |digits| && AllBelow(digits, Pow(2, bits))
    ensures Field(Word(digits, Pow(2, bits)), bits, k) == digits[k]
  {
    hide Pow, Word;
    PowPositive(2, bits);
    PowMul(bits, k);
    WordDigit(digits, Pow(2, bits), k);
  }

  /** Storing one field changes that field alone; the rest of the word, padding included, stays. */
  lemma WithFieldEffect(word: u64, bits: nat, k: nat, value: nat, j: nat)
    requires 1 <= bits <= 31 && k < 64 / bits && j <= 64 / bits && value < Pow(2, bits)
    ensures WithField(word, bits, k, value) >= 0
    ensures Field(WithField(word, bits, k, value), bits, j) == if j == k then value else Field(word, bits, j)
  {
    hide Pow, Word, Digits, Field;
    var base, n := Pow(2, bits), 64 / bits + 1;
    WordHasDigits(word, bits);
    var digits := Digits(word, base, n);
    FieldIsDigit(digits, bits, k);
    FieldIsDigit(digits, bits, j);
    WordUpdate(digits, base, k, value);
    PowMul(bits, k);
    FieldIsDigit(digits[k := value], bits, j);
  }

  /** The stored word still fits: fields below the padding, and the padding as it was. */
  lemma FieldFits(word: u64, bits: nat, k: nat, value: nat)
    requires 1 <= bits <= 31 && k < 64 / bits && value < Pow(2, bits)
    ensures 0 <= WithField(word, bits, k, value) < TWO_64
  {
    hide Pow, Word, Digits, Field;
    var base, per := Pow(2, bits), 64 / bits;
    WordHasDigits(word, bits);
    var digits := Digits(word, base, per + 1);
    FieldIsDigit(digits, bits, k);
    WordUpdate(digits, base, k, value);
    PowMul(bits, k);
    var after := digits[k := value];
    SplitPadding(digits, base, per);
    SplitPadding(after, base, per);
    PaddingRoom(Word(digits[..per], base), digits[per], bits, per, Word(after[..per], base));
  }

  lemma SplitPadding(digits: seq<nat>, base: nat, per: nat)
    requires |digits| == per + 1 && base > 0 && AllBelow(digits, base)
    ensures Word(digits, base) == Word(digits[..per], base) + digits[per] * Pow(base, per)
    ensures Word(digits[..per], base) < Pow(base, per)
  {
    hide Pow, Word;
    assert digits == digits[..per] + [digits[per]];
    WordAppend(digits[..per], digits[per], base);
    WordBound(digits[..per], base);
  }

  /** Below a power of two, the part above a smaller power leaves room for any low part. */
  lemma PaddingRoom(low: nat, high: nat, bits: nat, per: nat, other: nat)
    requires per * bits <= 64 && low + high * Pow(Pow(2, bits), per) < TWO_64 && other < Pow(Pow(2, bits), per)
    ensures other + high * Pow(Pow(2, bits), per) < TWO_64
  {
    hide Pow;
    var block, left := Pow(2, per * bits), Pow(2, 64 - per * bits);
    PowMul(bits, per);
    PowAdd(2, per * bits, 64 - per * bits);
    Pow64();
    assert block * left == TWO_64;
    if high >= left {
      MulMonotone(block, left, high);
    }
    MulMonotone(block, high + 1, left);
    assert block * (high + 1) == high * block + block;
  }

  /** Writing a column changes no other column. */
  lemma SetColumnEffect(words: seq<u64>, bits: nat, i: nat, value: nat, j: nat)
    requires Shaped(words, bits) && i < COLUMNS && j < COLUMNS && value < Pow(2, bits)
    ensures Column(SetColumn(words, bits, i, value), bits, j) == if i == j then value else Column(words, bits, j)
  {
    hide Field, Pow, WithField, WordIndex, DigitIndex;
    WordInRange(bits, i);
    WordInRange(bits, j);
    PositionFacts(i, bits);
    PositionFacts(j, bits);
    if WordIndex(i, bits) == WordIndex(j, bits) {
      FieldFits(words[WordIndex(i, bits)], bits, DigitIndex(i, bits), value);
      WithFieldEffect(words[WordIndex(i, bits)], bits, DigitIndex(i, bits), value, DigitIndex(j, bits));
    }
  }

  /** Nor the bits past the last field of any word. */
  lemma PaddingKept(words: seq<u64>, bits: nat, i: nat, value: nat, w: nat)
    requires Shaped(words, bits) && i < COLUMNS && value < Pow(2, bits) && w < |words|
    ensures Field(SetColumn(words, bits, i, value)[w], bits, 64 / bits) == Field(words[w], bits, 64 / bits)
  {
    hide Field, Pow, WithField, WordIndex, DigitIndex;
    WordInRange(bits, i);
    PositionFacts(i, bits);
    FieldFits(words[WordIndex(i, bits)], bits, DigitIndex(i, bits), value);
    WithFieldEffect(words[WordIndex(i, bits)], bits, DigitIndex(i, bits), value, 64 / bits);
  }

  lemma ZeroColumns(bits: nat, i: nat)
    requires 1 <= bits <= 31 && i < COLUMNS
    ensures Shaped(seq(ColumnWords(bits), _ => 0), bits) && Column(seq(ColumnWords(bits), _ => 0), bits, i) == 0
  {
    WordInRange(bits, i);
    var scale, base := Pow(2, DigitIndex(i, bits) * bits), Pow(2, bits);
    PowPositive(2, DigitIndex(i, bits) * bits);
    PowPositive(2, bits);
    QuotientIs(0, scale, 0, 0);
    QuotientIs(0, base, 0, 0);
  }
}
