/** Bytes, big-endian integers and the two failure datatypes shared by every component. */
module Bytes {

  type Byte = b: int | 0 <= b < 256

  datatype Option<+T> = None | Some(value: T)

  datatype Result<+T, +E> = Ok(value: T) | Err(error: E)

  function U16(hi: Byte, lo: Byte): nat {
    hi * 0x100 + lo
  }

  function U24(a: Byte, b: Byte, c: Byte): nat {
    a * 0x1_0000 + b * 0x100 + c
  }

  function U32(a: Byte, b: Byte, c: Byte, d: Byte): nat {
    a * 0x100_0000 + b * 0x1_0000 + c * 0x100 + d
  }

  const U64_MAX: nat := 0xFFFF_FFFF_FFFF_FFFF

  function Min(a: int, b: int): int {
    if a <= b then a else b
  }

  function Max(a: int, b: int): int {
    if a >= b then a else b
  }

  /** Nothing is listed twice. */
  ghost predicate Unique(s: seq<nat>) {
    forall i, j :: 0 <= i < j < |s| ==> s[i] != s[j]
  }

  /** Concatenation of a list of byte strings. */
  function Concat(parts: seq<seq<Byte>>): seq<Byte> {
    if parts == [] then [] else parts[0] + Concat(parts[1..])
  }

  lemma {:induction false} ConcatAppend(a: seq<seq<Byte>>, b: seq<seq<Byte>>)
    ensures Concat(a + b) == Concat(a) + Concat(b)
  {
    if a == [] {
      assert a + b == b;
    } else {
      assert (a + b)[1..] == a[1..] + b;
      ConcatAppend(a[1..], b);
    }
  }
}
