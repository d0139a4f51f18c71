/** Machine integers with explicit wrap-around, chunk addresses and their packed keys. */
module World {

  const TWO_31: int := 0x8000_0000
  const TWO_32: int := 0x1_0000_0000
  const TWO_63: int := 0x8000_0000_0000_0000
  const TWO_64: int := 0x1_0000_0000_0000_0000

  type u8 = x: int | 0 <= x < 0x100
  type u16 = x: int | 0 <= x < 0x1_0000
  type u32 = x: int | 0 <= x < 0x1_0000_0000
  type u64 = x: int | 0 <= x < 0x1_0000_0000_0000_0000
  type i32 = x: int | -0x8000_0000 <= x < 0x8000_0000
  type i64 = x: int | -0x8000_0000_0000_0000 <= x < 0x8000_0000_0000_0000

  const I32_MAX: i32 := 0x7fff_ffff
  const I32_MIN: i32 := -0x8000_0000
  /** Sizes are 64 bits wide. */
  const USIZE_MAX: nat := 0xffff_ffff_ffff_ffff

  datatype Option<+T> = None | Some(value: T)

  datatype Result<+T, +E> = Ok(value: T) | Err(error: E)

  /** Two's-complement truncation to 32 bits. */
  function WrapI32(x: int): i32 {
    var m := x % 0x1_0000_0000;
    if m < 0x8000_0000 then m else m - 0x1_0000_0000
  }

  /** Two's-complement truncation to 64 bits. */
  function WrapI64(x: int): i64 {
    var m := x % 0x1_0000_0000_0000_0000;
    if m < 0x8000_0000_0000_0000 then m else m - 0x1_0000_0000_0000_0000
  }

  /** Wrapping keeps a value in range and changes any other by whole turns. */
  lemma WrapMeans(x: int)
    ensures WrapI32(x) % 0x1_0000_0000 == x % 0x1_0000_0000
    ensures WrapI64(x) % 0x1_0000_0000_0000_0000 == x % 0x1_0000_0000_0000_0000
    ensures I32_MIN <= x <= I32_MAX ==> WrapI32(x) == x
    ensures -0x8000_0000_0000_0000 <= x < 0x8000_0000_0000_0000 ==> WrapI64(x) == x
  {
  }

  function AsU32(x: i32): u32 {
    if x >= 0 then x else x + 0x1_0000_0000
  }

  datatype ChunkAddress = ChunkAddress(x: i32, z: i32)

  const ZERO_ADDRESS := ChunkAddress(0, 0)

  function Pack(position: ChunkAddress): (r: u64) {
    AsU32(position.x) + AsU32(position.z) * 0x1_0000_0000
  }

  function Unpack(key: u64): ChunkAddress {
    ChunkAddress(WrapI32(key), WrapI32(key / 0x1_0000_0000))
  }

  /** The x coordinate is the low word of a key and the z coordinate the high word, both in two's complement. */
  lemma PackMeans(position: ChunkAddress)
    ensures Pack(position) % 0x1_0000_0000 == position.x % 0x1_0000_0000
    ensures Pack(position) / 0x1_0000_0000 == position.z % 0x1_0000_0000
  {
    SplitWords(AsU32(position.x), AsU32(position.z));
  }

  /** Packing is a bijection between chunk addresses and 64-bit keys. */
  lemma PackRoundTrips(position: ChunkAddress)
    ensures Unpack(Pack(position)) == position
    ensures Pack(position) == 0 <==> position == ZERO_ADDRESS
  {
    SplitWords(AsU32(position.x), AsU32(position.z));
    LowWordSigned(position.x, AsU32(position.z));
    LowWordSigned(position.z, 0);
  }

  lemma UnpackRoundTrips(key: u64)
    ensures Pack(Unpack(key)) == key
  {
    SignedLowWord(key);
    SignedLowWord(key / 0x1_0000_0000);
  }

  lemma SplitWords(low: int, high: int)
    requires 0 <= low < 0x1_0000_0000
    ensures (low + high * 0x1_0000_0000) / 0x1_0000_0000 == high
    ensures (low + high * 0x1_0000_0000) % 0x1_0000_0000 == low
  {
  }

  lemma LowWordSigned(x: i32, high: int)
    ensures WrapI32(AsU32(x) + high * 0x1_0000_0000) == x
  {
    SplitWords(AsU32(x), high);
  }

  lemma SignedLowWord(key: int)
    ensures AsU32(WrapI32(key)) == key % 0x1_0000_0000
  {
  }

  // ----- powers of two -----

  predicate IsPow2(n: nat) {
    n == 1 || (n > 1 && n % 2 == 0 && IsPow2(n / 2))
  }

  function NextPow2(n: nat): (r: nat)
    ensures r >= n && IsPow2(r)
  {
    if n <= 1 then 1 else 2 * NextPow2((n + 1) / 2)
  }

  lemma {:induction false} NextPow2Least(n: nat, p: nat)
    requires IsPow2(p) && n <= p
    ensures NextPow2(n) <= p
  {
    if n > 1 {
      NextPow2Least((n + 1) / 2, p / 2);
    }
  }

  lemma {:induction false} Pow2Gap(a: nat, b: nat)
    requires IsPow2(a) && IsPow2(b) && a < b
    ensures 2 * a <= b
  {
    if a > 1 {
      Pow2Gap(a / 2, b / 2);
    }
  }
}
