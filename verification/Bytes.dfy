/** Bytes, and the fixed-width little-endian numbers that the library writes with
    `serialize<uintN_t>` (a memcpy of the host representation). */
module Bytes {

  type Byte = b: int | 0 <= b < 256

  datatype Result<+T> = Ok(value: T) | Err(error: string) {
    predicate IsFailure() { Err? }
    function PropagateFailure<U>(): Result<U> requires Err? { Err(error) }
    function Extract(): T requires Ok? { value }
  }

  datatype Option<+T> = None | Some(value: T)

  const U16_SIZE: nat := 0x1_0000
  const U32_SIZE: nat := 0x1_0000_0000
  const U64_SIZE: nat := 0x1_0000_0000_0000_0000

  /** The number of values a field of `width` bytes can hold. */
  function Capacity(width: nat): (r: nat)
    ensures r > 0
  {
    if width == 0 then 1 else 256 * Capacity(width - 1)
  }

  function ToBytes(v: nat, width: nat): (s: seq<Byte>)
    ensures |s| == width
  {
    if width == 0 then [] else [v % 256] + ToBytes(v / 256, width - 1)
  }

  function FromBytes(s: seq<Byte>): (v: nat)
    ensures v < Capacity(|s|)
  {
    if s == [] then 0 else s[0] + 256 * FromBytes(s[1..])
  }

  function Repeat<T>(v: T, n: nat): (s: seq<T>)
    ensures |s| == n
    ensures forall i :: 0 <= i < n ==> s[i] == v
  {
    seq(n, _ => v)
  }

  /** Reading back a number that fits its field gives the number. */
  lemma {:induction false} FromToBytes(v: nat, width: nat)
    requires v < Capacity(width)
    ensures FromBytes(ToBytes(v, width)) == v
  {
    if width > 0 {
      FromToBytes(v / 256, width - 1);
      assert ToBytes(v, width)[1..] == ToBytes(v / 256, width - 1);
    }
  }

  /** The other direction: a field is determined by the number it holds. */
  lemma {:induction false} ToFromBytes(s: seq<Byte>)
    ensures ToBytes(FromBytes(s), |s|) == s
  {
    if s != [] {
      ToFromBytes(s[1..]);
      var v := FromBytes(s);
      assert v % 256 == s[0] && v / 256 == FromBytes(s[1..]);
    }
  }

  lemma Capacities()
    ensures Capacity(2) == U16_SIZE && Capacity(4) == U32_SIZE && Capacity(8) == U64_SIZE
  {
  }
}
