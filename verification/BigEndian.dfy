/** Big-endian byte forms of unsigned integers of a fixed width. */
module BigEndian {
  import opened World

  type Bytes = seq<u8>

  /** Number of values of `width` bytes. */
  function Span(width: nat): (r: nat)
    ensures r >= 1
  {
    if width == 0 then 1 else 256 * Span(width - 1)
  }

  function Put(value: nat, width: nat): (r: Bytes)
    ensures |r| == width
  {
    if width == 0 then [] else Put(value / 256, width - 1) + [value % 256]
  }

  function Take(bytes: Bytes): nat {
    if bytes == [] then 0 else Take(bytes[..|bytes| - 1]) * 256 + bytes[|bytes| - 1]
  }

  lemma {:induction false} TakePut(value: nat, width: nat)
    requires value < Span(width)
    ensures Take(Put(value, width)) == value
  {
    if width > 0 {
      TakePut(value / 256, width - 1);
      assert Put(value, width)[..width - 1] == Put(value / 256, width - 1);
    }
  }

  lemma {:induction false} TakeBound(bytes: Bytes)
    ensures Take(bytes) < Span(|bytes|)
  {
    if bytes != [] {
      TakeBound(bytes[..|bytes| - 1]);
    }
  }

  lemma {:induction false} PutTake(bytes: Bytes)
    ensures Put(Take(bytes), |bytes|) == bytes
  {
    if bytes != [] {
      PutTake(bytes[..|bytes| - 1]);
    }
  }

  /** The most significant byte comes first. */
  lemma PutMeans(a: u8, b: u8, c: u8, d: u8, rest: nat)
    ensures Put(d, 1) == [d]
    ensures Put(0x100 * c + d, 2) == [c, d]
    ensures Put(0x100_0000 * a + 0x1_0000 * b + 0x100 * c + d, 4) == [a, b, c, d]
    ensures Put(TWO_32 * rest + 0x100_0000 * a + 0x1_0000 * b + 0x100 * c + d, 8) == Put(rest, 4) + [a, b, c, d]
  {
    PutEnds(rest, a, b, c, d, 4);
    PutEnds(0, a, b, c, d, 0);
    PutLast(0, d, 0);
    PutLast(c, d, 1);
    PutLast(0, c, 0);
  }

  lemma PutEnds(rest: nat, a: u8, b: u8, c: u8, d: u8, width: nat)
    ensures Put(TWO_32 * rest + 0x100_0000 * a + 0x1_0000 * b + 0x100 * c + d, width + 4) == Put(rest, width) + [a, b, c, d]
  {
    hide Put;
    var one := 0x100 * rest + a;
    var two := 0x100 * one + b;
    var three := 0x100 * two + c;
    PutLast(rest, a, width);
    PutLast(one, b, width + 1);
    PutLast(two, c, width + 2);
    PutLast(three, d, width + 3);
    assert Put(rest, width) + [a] + [b] + [c] + [d] == Put(rest, width) + [a, b, c, d];
  }

  lemma PutLast(rest: nat, last: u8, width: nat)
    ensures Put(0x100 * rest + last, width + 1) == Put(rest, width) + [last]
    ensures Put(rest, 0) == []
  {
  }

  lemma Widths()
    ensures Span(1) == 0x100 && Span(2) == 0x1_0000 && Span(4) == TWO_32 && Span(8) == TWO_64
  {
    assert Span(2) == 256 * Span(1) && Span(3) == 256 * Span(2) && Span(4) == 256 * Span(3);
    assert Span(5) == 256 * Span(4) && Span(6) == 256 * Span(5) && Span(7) == 256 * Span(6);
  }

  // ----- sequences of fixed-width values -----

  function PutAll(values: seq<nat>, width: nat): (r: Bytes) {
    if values == [] then [] else PutAll(values[..|values| - 1], width) + Put(values[|values| - 1], width)
  }

  lemma {:induction false} PutAllLength(values: seq<nat>, width: nat)
    ensures |PutAll(values, width)| == width * |values|
  {
    if values != [] {
      PutAllLength(values[..|values| - 1], width);
      assert width * |values| == width * (|values| - 1) + width;
    }
  }

  lemma {:induction false} PutAllConcat(a: seq<nat>, b: seq<nat>, width: nat)
    ensures PutAll(a + b, width) == PutAll(a, width) + PutAll(b, width)
  {
    hide Put;
    if b == [] {
      assert a + b == a;
    } else {
      PutAllConcat(a, b[..|b| - 1], width);
      assert (a + b)[..|a + b| - 1] == a + b[..|b| - 1];
    }
  }

  /** The i-th value sits at its own offset. */
  lemma PutAllAt(values: seq<nat>, width: nat, i: nat)
    requires i < |values|
    ensures width * i + width <= |PutAll(values, width)|
    ensures PutAll(values, width)[width * i..width * i + width] == Put(values[i], width)
  {
    var a, b := values[..i], values[i + 1..];
    assert values == a + [values[i]] + b;
    PutAllConcat(a + [values[i]], b, width);
    assert (a + [values[i]])[..i] == a;
    PutAllLength(a, width);
    assert PutAll(values, width) == PutAll(a, width) + Put(values[i], width) + PutAll(b, width);
  }
}
