/** Fixed-width integers, written out because Dafny's integers are unbounded. */
module Ints {

  const TWO_31: int := 0x8000_0000
  const TWO_32: int := 0x1_0000_0000
  const TWO_63: int := 0x8000_0000_0000_0000
  const TWO_64: int := 0x1_0000_0000_0000_0000

  type byte = x: int | 0 <= x < 256
  type u32 = x: int | 0 <= x < TWO_32
  type u64 = x: int | 0 <= x < TWO_64
  type i64 = x: int | -TWO_63 <= x < TWO_63

  type Bytes = seq<byte>

  /** The low 64 bits, read as unsigned. */
  function U64(x: int): (r: u64)
    ensures 0 <= x < TWO_64 ==> r == x
  {
    x % TWO_64
  }

  /** The low 64 bits, read as two's complement. */
  function I64(x: int): (r: i64)
    ensures -TWO_63 <= x < TWO_63 ==> r == x
    ensures TWO_63 <= x < TWO_64 ==> r == x - TWO_64
  {
    var y := x % TWO_64;
    if y < TWO_63 then y else y - TWO_64
  }

  /** Signed 64-bit addition: what leaves the range on one side comes back on the other. */
  function Add64(x: i64, y: i64): i64 {
    if x + y >= TWO_63 then x + y - TWO_64 else if x + y < -TWO_63 then x + y + TWO_64 else x + y
  }

  lemma Add64Means(x: i64, y: i64)
    ensures (Add64(x, y) - (x + y)) % 0x1_0000_0000_0000_0000 == 0
  {
  }

  /** The low 32 bits, read as two's complement. */
  function I32(x: int): (r: int)
    ensures -TWO_31 <= r < TWO_31
    ensures 0 <= x < TWO_31 ==> r == x
  {
    var y := x % TWO_32;
    if y < TWO_31 then y else y - TWO_32
  }

  function Pow(b: nat, e: nat): (r: nat)
    ensures b > 0 ==> r > 0
  {
    if e == 0 then 1 else b * Pow(b, e - 1)
  }

  /** The bytes of a text made of single-byte characters. */
  function Ascii(s: string): (r: Bytes)
    ensures |r| == |s|
  {
    seq(|s|, i requires 0 <= i < |s| => (s[i] as int) % 256)
  }
}
