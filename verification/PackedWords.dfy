/**
 Fixed-width values packed low to high into 64-bit words. A value never crosses a word, and
 every unused high bit is zero, so the packed form of a sequence of values is unique.
 */
module PackedWords {
  import opened World

  function Pow(base: nat, n: nat): nat {
    if n == 0 then 1 else base * Pow(base, n - 1)
  }

  // ----- one word as a number in base b -----

  /** The word holding the given digits, least significant first. */
  function Word(digits: seq<nat>, base: nat): nat {
    if digits == [] then 0 else digits[0] + base * Word(digits[1..], base)
  }

  predicate AllBelow(digits: seq<nat>, base: nat) {
    forall i :: 0 <= i < |digits| ==> digits[i] < base
  }

  lemma PowPositive(base: nat, n: nat)
    requires base > 0
    ensures Pow(base, n) > 0
  {
  }

  lemma {:induction false} WordBound(digits: seq<nat>, base: nat)
    requires base > 0 && AllBelow(digits, base)
    ensures Word(digits, base) < Pow(base, |digits|)
  {
    if digits != [] {
      WordBound(digits[1..], base);
      var w, p := Word(digits[1..], base), Pow(base, |digits| - 1);
      MulMonotone(base, w + 1, p);
      assert base * (w + 1) == base * w + base;
    }
  }

  /** Shifting a new highest digit into place. */
  lemma {:induction false} WordAppend(digits: seq<nat>, v: nat, base: nat)
    ensures Word(digits + [v], base) == Word(digits, base) + v * Pow(base, |digits|)
  {
    if digits == [] {
      assert digits + [v] == [v] && [v][1..] == [];
    } else {
      WordAppend(digits[1..], v, base);
      assert (digits + [v])[1..] == digits[1..] + [v];
      Distribute(base, Word(digits[1..], base), v, Pow(base, |digits| - 1));
    }
  }

  lemma Distribute(b: nat, w: nat, v: nat, p: nat)
    ensures b * (w + v * p) == b * w + v * (b * p)
  {
  }

  /** A shift and mask reads exactly one digit. */
  lemma {:induction false} WordDigit(digits: seq<nat>, base: nat, k: nat)
    requires base > 0 && AllBelow(digits, base) && k < |digits|
    ensures Pow(base, k) > 0 && Word(digits, base) / Pow(base, k) % base == digits[k]
  {
    PowPositive(base, k);
    var w := Word(digits[1..], base);
    if k == 0 {
      DivMod(digits[0], w, base);
    } else {
      WordDigit(digits[1..], base, k - 1);
      PowPositive(base, k - 1);
      DivMod(digits[0], w, base);
      DivDiv(Word(digits, base), base, Pow(base, k - 1));
    }
  }

  lemma MulMonotone(m: nat, x: nat, y: nat)
    requires x <= y
    ensures m * x <= m * y
  {
    assert m * y == m * x + m * (y - x);
  }

  /** Division with remainder is unique. */
  lemma QuotientIs(n: nat, m: nat, q: nat, r: nat)
    requires n == m * q + r && r < m
    ensures n / m == q && n % m == r
  {
    var p, t := n / m, n % m;
    assert n == m * p + t;
    assert m * (p + 1) == m * p + m && m * (q + 1) == m * q + m;
    if p < q {
      MulMonotone(m, p + 1, q);
    } else if p > q {
      MulMonotone(m, q + 1, p);
    }
  }

  lemma DivMod(d: nat, w: nat, base: nat)
    requires d < base
    ensures (d + base * w) / base == w && (d + base * w) % base == d
  {
    QuotientIs(d + base * w, base, w, d);
  }

  lemma DivDiv(n: nat, a: nat, b: nat)
    requires a > 0 && b > 0
    ensures a * b > 0 && n / (a * b) == n / a / b
  {
    var q, r := n / a, n % a;
    var s, t := q / b, q % b;
    Nested(n, a, b, q, r, s, t);
    QuotientIs(n, a * b, s, a * t + r);
  }

  lemma Nested(n: nat, a: nat, b: nat, q: nat, r: nat, s: nat, t: nat)
    requires n == a * q + r && r < a && q == b * s + t && t < b
    ensures n == a * b * s + (a * t + r) && a * t + r < a * b
  {
    assert a * (b * s + t) == a * b * s + a * t;
    MulMonotone(a, t + 1, b);
    assert a * (t + 1) == a * t + a;
  }

  /** Clearing one digit and storing another changes the word by their difference. */
  lemma {:induction false} WordUpdate(digits: seq<nat>, base: nat, k: nat, v: nat)
    requires k < |digits|
    ensures Word(digits[k := v], base) == Word(digits, base) - digits[k] * Pow(base, k) + v * Pow(base, k)
  {
    var after := digits[k := v];
    if k == 0 {
      assert after[1..] == digits[1..];
    } else {
      assert after[1..] == digits[1..][k - 1 := v];
      WordUpdate(digits[1..], base, k - 1, v);
      var p := Pow(base, k - 1);
      var w := Word(digits[1..], base);
      var d := digits[k];
      assert Word(after[1..], base) == w - d * p + v * p;
      assert base * (w - d * p + v * p) == base * w - d * (base * p) + v * (base * p);
    }
  }

  lemma {:induction false} PowAdd(base: nat, m: nat, n: nat)
    ensures Pow(base, m + n) == Pow(base, m) * Pow(base, n)
  {
    if m > 0 {
      PowAdd(base, m - 1, n);
      assert base * (Pow(base, m - 1) * Pow(base, n)) == base * Pow(base, m - 1) * Pow(base, n);
    }
  }

  /** Shifting by whole digits. */
  lemma {:induction false} PowMul(bits: nat, k: nat)
    ensures Pow(Pow(2, bits), k) == Pow(2, k * bits)
  {
    if k > 0 {
      PowMul(bits, k - 1);
      PowAdd(2, bits, (k - 1) * bits);
      assert bits + (k - 1) * bits == k * bits;
    }
  }

  lemma {:induction false} PowGrows(m: nat, n: nat)
    requires m <= n
    ensures 0 < Pow(2, m) <= Pow(2, n)
  {
    PowPositive(2, m);
    if m < n {
      PowGrows(m, n - 1);
    }
  }

  lemma Pow64()
    ensures Pow(2, 64) == TWO_64
  {
    assert Pow(2, 4) == 16;
    PowAdd(2, 4, 4);
    PowAdd(2, 8, 8);
    PowAdd(2, 16, 16);
    PowAdd(2, 32, 32);
  }

  // ----- the words of a sequence of cells -----

  function PackAll(cells: seq<nat>, base: nat, per: nat): seq<nat>
    requires per > 0
    decreases |cells|
  {
    if |cells| <= per then [Word(cells, base)] else [Word(cells[..per], base)] + PackAll(cells[per..], base, per)
  }

  function WordEnd(at: nat, per: nat, len: nat): nat {
    if at + per < len then at + per else len
  }

  /** First cell of word `w`. */
  function Offset(w: nat, per: nat): nat {
    if w == 0 then 0 else per + Offset(w - 1, per)
  }

  lemma {:induction false} OffsetIsProduct(w: nat, per: nat)
    ensures Offset(w, per) == per * w
  {
    if w > 0 {
      OffsetIsProduct(w - 1, per);
      assert per * w == per * (w - 1) + per;
    }
  }

  lemma TailSlice(cells: seq<nat>, per: nat, x: nat, y: nat)
    requires per <= x <= y <= |cells|
    ensures cells[per..][x - per..y - per] == cells[x..y]
  {
  }

  lemma UpdateTail(cells: seq<nat>, per: nat, i: nat, v: nat)
    requires per <= i < |cells|
    ensures cells[i := v][..per] == cells[..per] && cells[i := v][per..] == cells[per..][i - per := v]
  {
  }

  /** Word `w` holds the cells from `Offset(w, per)` on. */
  lemma {:induction false} PackAllAt(cells: seq<nat>, base: nat, per: nat, w: nat, at: nat)
    requires per > 0 && at == Offset(w, per) < |cells|
    ensures w < |PackAll(cells, base, per)|
    ensures PackAll(cells, base, per)[w] == Word(cells[at..WordEnd(at, per, |cells|)], base)
    decreases w
  {
    hide Word;
    if w == 0 {
      assert cells[0..|cells|] == cells && cells[0..WordEnd(0, per, |cells|)] == cells[..WordEnd(0, per, |cells|)];
    } else {
      PackAllAt(cells[per..], base, per, w - 1, at - per);
      TailSlice(cells, per, at, WordEnd(at, per, |cells|));
    }
  }

  /** Changing one cell changes one digit of one word. */
  lemma {:induction false} PackAllUpdate(cells: seq<nat>, base: nat, per: nat, w: nat, at: nat, k: nat, v: nat)
    requires per > 0 && k < per && at == Offset(w, per) && at + k < |cells|
    ensures w < |PackAll(cells, base, per)|
    ensures PackAll(cells[at + k := v], base, per) ==
            PackAll(cells, base, per)[w := Word(cells[at..WordEnd(at, per, |cells|)][k := v], base)]
    decreases w
  {
    hide Word;
    var after := cells[at + k := v];
    if w == 0 {
      if |cells| <= per {
        assert cells[0..|cells|] == cells;
      } else {
        assert after[..per] == cells[..per][k := v] && after[per..] == cells[per..];
        assert cells[0..per] == cells[..per];
      }
    } else {
      PackAllUpdate(cells[per..], base, per, w - 1, at - per, k, v);
      UpdateTail(cells, per, at + k, v);
      TailSlice(cells, per, at, WordEnd(at, per, |cells|));
    }
  }

  lemma {:induction false} PackAllLength(cells: seq<nat>, base: nat, per: nat)
    requires per > 0 && cells != []
    ensures |PackAll(cells, base, per)| == (|cells| + per - 1) / per
    decreases |cells|
  {
    if |cells| <= per {
      QuotientIs(|cells| + per - 1, per, 1, |cells| - 1);
    } else {
      PackAllLength(cells[per..], base, per);
      var n := |cells| - per + per - 1;
      QuotientIs(|cells| + per - 1, per, n / per + 1, n % per);
    }
  }

  // ----- packed storage -----

  const MAX_LEN: nat := 4096

  datatype PackError =
    | InvalidBits(bits: nat) | LengthOutOfRange(expected: nat, actual: nat) | OverBudget
    | IndexOutOfBounds | ValueOutOfRange(value: u32)

  datatype Packed = Packed(bits: nat, len: nat, words: seq<u64>) {
    predicate Shaped() {
      1 <= bits <= 31 && 1 <= len <= 4096
    }

    function PerWord(): (r: nat)
      requires Shaped()
      ensures 2 <= r <= 64 && r * bits <= 64
    {
      64 / bits
    }

    function Base(): nat {
      Pow(2, bits)
    }

    /** The words are exactly the given cells, packed; unused bits are zero. */
    ghost predicate Holds(cells: seq<nat>) {
      && Shaped() && |cells| == len && AllBelow(cells, Base())
      && words == PackAll(cells, Base(), PerWord())
    }
  }

  function WordCount(bits: nat, len: nat): nat
    requires bits > 0 && 64 / bits > 0
  {
    (len + 64 / bits - 1) / (64 / bits)
  }

  /** Where a cell lives: its word, its digit there, and the digit's bit shift. */
  function WordIndex(i: nat, bits: nat): nat
    requires 1 <= bits <= 31
  {
    PerWordFacts(bits);
    i / (64 / bits)
  }

  function DigitIndex(i: nat, bits: nat): nat
    requires 1 <= bits <= 31
  {
    PerWordFacts(bits);
    i % (64 / bits)
  }

  function Scale(i: nat, bits: nat): nat
    requires 1 <= bits <= 31
  {
    Pow(2, DigitIndex(i, bits) * bits)
  }

  lemma PerWordFacts(bits: nat)
    requires 1 <= bits <= 31
    ensures 2 <= 64 / bits <= 64 && 64 / bits * bits <= 64
  {
  }

  lemma DivisionParts(i: nat, per: nat)
    requires per > 0
    ensures i == per * (i / per) + i % per && i % per < per
  {
  }

  lemma PositionFacts(i: nat, bits: nat)
    requires 1 <= bits <= 31
    ensures DigitIndex(i, bits) < 64 / bits
    ensures i == Offset(WordIndex(i, bits), 64 / bits) + DigitIndex(i, bits)
    ensures Scale(i, bits) == Pow(Pow(2, bits), DigitIndex(i, bits)) > 0
  {
    PerWordFacts(bits);
    var per := 64 / bits;
    DivisionParts(i, per);
    OffsetIsProduct(i / per, per);
    PowMul(bits, DigitIndex(i, bits));
    PowPositive(2, DigitIndex(i, bits) * bits);
  }

  /** Reading digit `k` of word `w` reads the cell at that offset. */
  lemma DigitIsCell(p: Packed, cells: seq<nat>, w: nat, k: nat)
    requires p.Holds(cells) && k < p.PerWord() && Offset(w, p.PerWord()) + k < p.len
    ensures w < |p.words| && Pow(p.Base(), k) > 0
    ensures p.words[w] / Pow(p.Base(), k) % p.Base() == cells[Offset(w, p.PerWord()) + k]
  {
    var per, base := p.PerWord(), p.Base();
    var at := Offset(w, per);
    hide Pow, Word, PackAll, Packed.PerWord, Packed.Base, Offset;
    PackAllAt(cells, base, per, w, at);
    var part := cells[at..WordEnd(at, per, |cells|)];
    assert part[k] == cells[at + k];
    BasePositive(p);
    WordDigit(part, base, k);
  }

  lemma BasePositive(p: Packed)
    ensures p.Base() > 0
  {
    PowPositive(2, p.bits);
  }

  /** What a cell lookup computes. */
  lemma LookupIsCell(p: Packed, cells: seq<nat>, i: nat)
    requires p.Holds(cells) && i < p.len
    ensures WordIndex(i, p.bits) < |p.words| && Scale(i, p.bits) > 0 && Pow(2, p.bits) > 0
    ensures p.words[WordIndex(i, p.bits)] / Scale(i, p.bits) % Pow(2, p.bits) == cells[i]
  {
    hide Pow, Scale, WordIndex, DigitIndex, Offset;
    PositionFacts(i, p.bits);
    DigitIsCell(p, cells, WordIndex(i, p.bits), DigitIndex(i, p.bits));
    BasePositive(p);
  }

  /** With `per` cells to a word, cell `k` of word `w` is the word's `k`th field from the low end. */
  lemma CellIsField(p: Packed, cells: seq<nat>, per: nat, w: nat, k: nat)
    requires p.Holds(cells) && per == 64 / p.bits && k < per && w * per + k < p.len
    ensures w < |p.words| && Pow(2, k * p.bits) > 0 && Pow(2, p.bits) > 0
    ensures p.words[w] / Pow(2, k * p.bits) % Pow(2, p.bits) == cells[w * per + k]
  {
    hide Pow, PackAll;
    OffsetIsProduct(w, per);
    DigitIsCell(p, cells, w, k);
    BasePositive(p);
    PowMul(p.bits, k);
  }

  /** Packed words determine the cells. */
  lemma HoldsUnique(p: Packed, a: seq<nat>, b: seq<nat>)
    requires p.Holds(a) && p.Holds(b)
    ensures a == b
  {
    forall i | 0 <= i < |a| ensures a[i] == b[i] {
      LookupIsCell(p, a, i);
      LookupIsCell(p, b, i);
    }
  }

  lemma {:induction false} PackAllBounded(cells: seq<nat>, bits: nat, per: nat)
    requires per > 0 && per * bits <= 64 && AllBelow(cells, Pow(2, bits))
    ensures forall w :: 0 <= w < |PackAll(cells, Pow(2, bits), per)| ==> PackAll(cells, Pow(2, bits), per)[w] < TWO_64
    decreases |cells|
  {
    var base := Pow(2, bits);
    PowPositive(2, bits);
    if |cells| <= per {
      WordFits(cells, bits, per);
    } else {
      WordFits(cells[..per], bits, per);
      PackAllBounded(cells[per..], bits, per);
    }
  }

  lemma WordFits(cells: seq<nat>, bits: nat, per: nat)
    requires |cells| <= per && per * bits <= 64 && AllBelow(cells, Pow(2, bits))
    ensures Word(cells, Pow(2, bits)) < TWO_64
  {
    PowPositive(2, bits);
    WordBound(cells, Pow(2, bits));
    PowMul(bits, |cells|);
    MulMonotone(bits, |cells|, per);
    PowGrows(|cells| * bits, 64);
    Pow64();
  }

  method GetCell(p: Packed, i: nat, ghost cells: seq<nat>) returns (r: Option<nat>)
    requires p.Holds(cells)
    ensures r == if i < p.len then Some(cells[i]) else None
  {
    hide Pow, Scale, WordIndex, PackAll;
    if i >= p.len {
      return None;
    }
    LookupIsCell(p, cells, i);
    r := Some(p.words[WordIndex(i, p.bits)] / Scale(i, p.bits) % Pow(2, p.bits));
  }

  /** Masks one digit out of its word, to be returned, and stores another; no other cell changes. */
  method SetCell(p: Packed, i: nat, value: u32, ghost cells: seq<nat>) returns (r: Result<(Packed, nat), PackError>)
    requires p.Holds(cells)
    ensures i >= p.len ==> r == Err(IndexOutOfBounds)
    ensures i < p.len && value >= Pow(2, p.bits) ==> r == Err(ValueOutOfRange(value))
    ensures i < p.len && value < Pow(2, p.bits) ==>
      && r.Ok? && r.value.0.bits == p.bits && |r.value.0.words| == |p.words| && r.value.0.Holds(cells[i := value])
      && r.value.1 == cells[i]
  {
    hide Pow, Scale, WordIndex, PackAll;
    if i >= p.len {
      return Err(IndexOutOfBounds);
    }
    if value > Pow(2, p.bits) - 1 {
      return Err(ValueOutOfRange(value));
    }
    var w, scale := WordIndex(i, p.bits), Scale(i, p.bits);
    LookupIsCell(p, cells, i);
    var word := p.words[w];
    var previous := word / scale % Pow(2, p.bits);
    SetIsUpdate(p, cells, i, value);
    r := Ok((p.(words := p.words[w := Stored(word, previous, value, scale)]), previous));
  }

  /** A word with one digit cleared and another stored in its place. */
  function Stored(word: u64, previous: nat, value: nat, scale: nat): int {
    word - previous * scale + value * scale
  }

  lemma SetIsUpdate(p: Packed, cells: seq<nat>, i: nat, value: nat)
    requires p.Holds(cells) && i < p.len && value < p.Base()
    ensures var w := WordIndex(i, p.bits);
      && w < |p.words|
      && 0 <= Stored(p.words[w], cells[i], value, Scale(i, p.bits)) < TWO_64
      && p.(words := p.words[w := Stored(p.words[w], cells[i], value, Scale(i, p.bits))]).Holds(cells[i := value])
  {
    hide Pow, Scale, WordIndex, DigitIndex, Offset, Word, PackAll;
    PositionFacts(i, p.bits);
    var per, base := p.PerWord(), p.Base();
    var w, k := WordIndex(i, p.bits), DigitIndex(i, p.bits);
    var at := Offset(w, per);
    PackAllAt(cells, base, per, w, at);
    PackAllUpdate(cells, base, per, w, at, k, value);
    var part := cells[at..WordEnd(at, per, |cells|)];
    assert part[k] == cells[i];
    WordUpdate(part, base, k, value);
    PackAllBounded(cells[i := value], p.bits, per);
    assert PackAll(cells[i := value], base, per)[w] == Word(part[k := value], base);
  }

  /** Fresh storage, every cell zero, unless the width, the length or its words exceed what is allowed. */
  method NewPacked(bits: nat, len: nat, limit: nat) returns (r: Result<Packed, PackError>)
    ensures !(1 <= bits <= 31) ==> r == Err(InvalidBits(bits))
    ensures 1 <= bits <= 31 && !(1 <= len <= MAX_LEN) ==> r == Err(LengthOutOfRange(if len == 0 then 1 else MAX_LEN, len))
    ensures 1 <= bits <= 31 && 1 <= len <= MAX_LEN ==>
      && (r == Err(OverBudget) <==> 8 * WordCount(bits, len) > limit)
      && (r.Ok? <==> 8 * WordCount(bits, len) <= limit)
      && (r.Ok? ==> r.value.bits == bits && r.value.Holds(seq(len, _ => 0)) && |r.value.words| == WordCount(bits, len))
  {
    if !(1 <= bits <= 31) {
      return Err(InvalidBits(bits));
    }
    if !(1 <= len <= MAX_LEN) {
      return Err(LengthOutOfRange(if len == 0 then 1 else MAX_LEN, len));
    }
    var count := WordCount(bits, len);
    if 8 * count > limit {
      return Err(OverBudget);
    }
    r := Ok(Packed(bits, len, seq(count, _ => 0)));
    PowPositive(2, bits);
    PerWordFacts(bits);
    ZeroWords(seq(len, _ => 0), Pow(2, bits), 64 / bits);
    PackAllLength(seq(len, _ => 0), Pow(2, bits), 64 / bits);
  }

  lemma {:induction false} ZeroWords(cells: seq<nat>, base: nat, per: nat)
    requires per > 0 && forall i :: 0 <= i < |cells| ==> cells[i] == 0
    ensures forall w :: 0 <= w < |PackAll(cells, base, per)| ==> PackAll(cells, base, per)[w] == 0
    decreases |cells|
  {
    if |cells| <= per {
      ZeroWord(cells, base);
    } else {
      ZeroWord(cells[..per], base);
      ZeroWords(cells[per..], base, per);
    }
  }

  lemma {:induction false} ZeroWord(cells: seq<nat>, base: nat)
    requires forall i :: 0 <= i < |cells| ==> cells[i] == 0
    ensures Word(cells, base) == 0
  {
    if cells != [] {
      ZeroWord(cells[1..], base);
    }
  }
}
