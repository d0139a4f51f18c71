/** Variable-length integers of the wire protocol, on their unsigned 32-bit form. */
module Wire {
  import opened World

  type Bytes = seq<u8>

  const MAX_VARINT_BYTES: nat := 5

  datatype DecodeError = Incomplete | TooLong

  // ----- the encoding -----

  /** Seven payload bits a byte, least significant first, continuation in the top bit. */
  function Varint(value: u32): (r: Bytes)
    ensures |r| >= 1
  {
    if value < 128 then [value] else [value % 128 + 128] + Varint(value / 128)
  }

  function BitLength(n: nat): nat {
    if n == 0 then 0 else 1 + BitLength(n / 2)
  }

  /** Number of bytes, from the position of the highest set bit. */
  function VarintLen(value: u32): nat {
    if value == 0 then 1 else (BitLength(value) + 6) / 7
  }

  lemma SevenHalves(n: nat)
    ensures n / 2 / 2 / 2 / 2 / 2 / 2 / 2 == n / 128
  {
    var a := n / 2;
    var b := a / 2;
    var c := b / 2;
    var d := c / 2;
    var e := d / 2;
    var f := e / 2;
    var g := f / 2;
    assert 128 * g <= n < 128 * g + 128;
  }

  /** One more payload byte is seven more bits. */
  lemma BitLengthShift(n: nat)
    requires n >= 128
    ensures BitLength(n) == 7 + BitLength(n / 128)
  {
    var a := n / 2;
    var b := a / 2;
    var c := b / 2;
    var d := c / 2;
    var e := d / 2;
    var f := e / 2;
    SevenHalves(n);
    assert BitLength(n) == 1 + BitLength(a) == 2 + BitLength(b) == 3 + BitLength(c);
    assert BitLength(c) == 1 + BitLength(d) == 2 + BitLength(e) == 3 + BitLength(f) == 4 + BitLength(f / 2);
  }

  lemma {:induction false} SmallBitLength(n: nat)
    requires 0 < n < 128
    ensures 1 <= BitLength(n) <= 7
  {
    var a := n / 2;
    var b := a / 2;
    var c := b / 2;
    var d := c / 2;
    var e := d / 2;
    var f := e / 2;
    assert f < 2 && BitLength(f) <= 1;
    assert BitLength(e) <= 2 && BitLength(d) <= 3 && BitLength(c) <= 4 && BitLength(b) <= 5 && BitLength(a) <= 6;
  }

  /** The length computed from the leading zeros is the length of the encoding. */
  lemma {:induction false} LengthAgrees(value: u32)
    ensures |Varint(value)| == VarintLen(value)
  {
    if value < 128 {
      if value > 0 {
        SmallBitLength(value);
      }
    } else {
      LengthAgrees(value / 128);
      BitLengthShift(value);
    }
  }

  lemma VarintShort(value: u32)
    ensures |Varint(value)| <= MAX_VARINT_BYTES
  {
    var a := value / 128;
    var b := a / 128;
    var c := b / 128;
    var d := c / 128;
    assert d < 128 && |Varint(d)| == 1;
    assert |Varint(c)| <= 2 && |Varint(b)| <= 3 && |Varint(a)| <= 4;
  }

  /** The seven-bit groups, least significant first, as few as hold the value; the top bit marks all but the last. */
  lemma VarintMeans(value: u32)
    ensures var b := Varint(value);
      && |b| == (if value < 0x80 then 1 else if value < 0x4000 then 2 else if value < 0x20_0000 then 3 else if value < 0x1000_0000 then 4 else 5)
      && b[0] % 0x80 == value % 0x80
      && (|b| > 1 ==> b[1] % 0x80 == value / 0x80 % 0x80)
      && (|b| > 2 ==> b[2] % 0x80 == value / 0x4000 % 0x80)
      && (|b| > 3 ==> b[3] % 0x80 == value / 0x20_0000 % 0x80)
      && (|b| > 4 ==> b[4] % 0x80 == value / 0x1000_0000 % 0x80)
      && forall i :: 0 <= i < |b| ==> (b[i] >= 0x80 <==> i < |b| - 1)
  {
    var v1 := value / 128;
    var v2 := v1 / 128;
    var v3 := v2 / 128;
    var v4 := v3 / 128;
    assert v2 == value / 0x4000 && v3 == value / 0x20_0000 && v4 == value / 0x1000_0000;
    VarintStep(value);
    VarintStep(v1);
    VarintStep(v2);
    VarintStep(v3);
    VarintStep(v4);
  }

  lemma VarintStep(value: u32)
    ensures value < 128 ==> Varint(value) == [value] && |Varint(value)| == 1
    ensures value >= 128 ==> |Varint(value)| == 1 + |Varint(value / 128)| && Varint(value)[0] == value % 128 + 128
    ensures value >= 128 ==> Varint(value) == [value % 128 + 128] + Varint(value / 128)
  {
  }

  datatype BufferTooSmall = BufferTooSmall(required: nat, available: nat)

  /** Writes over the start of a buffer; one that is too small is left as it was. */
  method WriteVarint(value: u32, output: array<u8>) returns (r: Result<nat, BufferTooSmall>)
    modifies output
    ensures output.Length < |Varint(value)| ==>
              r == Err(BufferTooSmall(|Varint(value)|, output.Length)) && output[..] == old(output[..])
    ensures output.Length >= |Varint(value)| ==>
              r == Ok(|Varint(value)|) && output[..] == Varint(value) + old(output[..])[|Varint(value)|..]
  {
    hide Varint, VarintLen;
    LengthAgrees(value);
    var length := VarintLen(value);
    ghost var text, before := Varint(value), output[..];
    if output.Length < length {
      return Err(BufferTooSmall(length, output.Length));
    }
    var remaining: u32 := value;
    for i := 0 to length - 1
      invariant output[..i] == text[..i] && text[i..] == Varint(remaining)
      invariant output[i..] == before[i..]
    {
      VarintStep(remaining);
      assert text[i..][0] == text[i] && text[i..][1..] == text[i + 1..];
      output[i] := remaining % 128 + 128;
      remaining := remaining / 128;
    }
    VarintStep(remaining);
    assert text[length - 1..][0] == text[length - 1];
    output[length - 1] := remaining;
    assert output[..length] == text && output[length..] == before[length..];
    assert output[..] == output[..length] + output[length..];
    r := Ok(length);
  }

  /** The encoding as a value, written into a buffer that is always large enough. */
  method VarintBytes(value: u32) returns (bytes: Bytes)
    ensures bytes == Varint(value)
  {
    VarintShort(value);
    var buffer := new u8[MAX_VARINT_BYTES](_ => 0);
    var written := WriteVarint(value, buffer);
    bytes := buffer[..written.value];
  }

  // ----- the decoding -----

  /** Payload of the first bytes; bits above the 32nd are discarded. */
  function Payload(bytes: Bytes): nat {
    if bytes == [] then 0 else bytes[0] % 128 + 128 * Payload(bytes[1..])
  }

  predicate Continues(b: u8) {
    b >= 128
  }

  /** Every byte but the last continues. */
  predicate IsVarint(bytes: Bytes) {
    bytes != [] && !Continues(bytes[|bytes| - 1]) && forall i :: 0 <= i < |bytes| - 1 ==> Continues(bytes[i])
  }

  lemma {:induction false} VarintIsVarint(value: u32)
    ensures IsVarint(Varint(value)) && Payload(Varint(value)) == value
  {
    hide Varint;
    VarintStep(value);
    if value >= 128 {
      VarintIsVarint(value / 128);
      var rest := Varint(value / 128);
      assert Varint(value)[1..] == rest;
      forall i | 0 <= i < |rest| ensures Continues(Varint(value)[i]) {
        assert i > 0 ==> Varint(value)[i] == rest[i - 1];
      }
    }
  }

  function Pow128(n: nat): nat {
    if n == 0 then 1 else 128 * Pow128(n - 1)
  }

  lemma {:induction false} PayloadAppend(bytes: Bytes, b: u8)
    ensures Payload(bytes + [b]) == Payload(bytes) + b % 128 * Pow128(|bytes|)
  {
    if bytes == [] {
      assert bytes + [b] == [b];
      assert [b][1..] == [];
    } else {
      PayloadAppend(bytes[1..], b);
      assert (bytes + [b])[1..] == bytes[1..] + [b];
      assert b % 128 * Pow128(|bytes|) == 128 * (b % 128 * Pow128(|bytes| - 1));
    }
  }

  /** A read takes the one well-formed prefix of at most five bytes, and fails if there is none. */
  ghost predicate Reads(input: Bytes, r: Result<(u32, nat), DecodeError>) {
    match r
    case Ok(read) =>
      && read.1 <= |input| && read.1 <= MAX_VARINT_BYTES && IsVarint(input[..read.1])
      && read.0 == Payload(input[..read.1]) % TWO_32
    case Err(error) =>
      && (forall n :: 0 < n <= |input| && n <= MAX_VARINT_BYTES ==> !IsVarint(input[..n]))
      && error == if |input| > MAX_VARINT_BYTES then TooLong else Incomplete
  }

  /** Reads one integer; overlong forms within five bytes are accepted. */
  method ReadVarint(input: Bytes) returns (r: Result<(u32, nat), DecodeError>)
    ensures Reads(input, r)
  {
    var value: nat := 0;
    var scale: nat := 1;
    var limit := if |input| < MAX_VARINT_BYTES then |input| else MAX_VARINT_BYTES;
    for i := 0 to limit
      invariant forall k :: 0 <= k < i ==> Continues(input[k])
      invariant value == Payload(input[..i]) && scale == Pow128(i)
    {
      PayloadAppend(input[..i], input[i]);
      assert input[..i + 1] == input[..i] + [input[i]];
      value := value + input[i] % 128 * scale;
      scale := 128 * scale;
      if input[i] < 128 {
        return Ok((value % TWO_32, i + 1));
      }
    }
    forall n | 0 < n <= limit ensures !IsVarint(input[..n]) {
      assert Continues(input[..n][n - 1]);
    }
    r := Err(if |input| > MAX_VARINT_BYTES then TooLong else Incomplete);
  }

  /** A well-formed prefix is the only one, so reading stops exactly where writing ended. */
  lemma PrefixIsUnique(bytes: Bytes, rest: Bytes, n: nat)
    requires IsVarint(bytes) && n <= |bytes + rest| && IsVarint((bytes + rest)[..n])
    ensures n == |bytes| && (bytes + rest)[..n] == bytes
  {
    var t := (bytes + rest)[..n];
    assert forall k :: 0 <= k < n && k < |bytes| ==> t[k] == bytes[k];
    assert !Continues(t[n - 1]);
  }

  /** What a read of a written integer must return, whatever follows it. */
  lemma ReadAfterWrite(value: u32, rest: Bytes, r: Result<(u32, nat), DecodeError>)
    requires Reads(Varint(value) + rest, r)
    ensures r == Ok((value, |Varint(value)|))
  {
    var input := Varint(value) + rest;
    VarintIsVarint(value);
    VarintShort(value);
    assert input[..|Varint(value)|] == Varint(value);
    if r.Ok? {
      PrefixIsUnique(Varint(value), rest, r.value.1);
    }
  }
}
