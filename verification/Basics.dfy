/** Types shared by every part of the model. */
module Basics {

  /** One octet on the wire, or of a UTF-8 string. */
  type Byte = x: int | 0 <= x < 256

  /** A buffer, or a string given by its UTF-8 octets. */
  type Bytes = seq<Byte>

  type U32 = x: nat | x < 0x1_0000_0000

  datatype Option<+T> = None | Some(value: T)

  const U32_MAX: nat := 0xFFFF_FFFF
  const U64_MAX: nat := 0xFFFF_FFFF_FFFF_FFFF

  function Min(a: int, b: int): int {
    if a < b then a else b
  }

  /** `u64::saturating_add(1)`; `usize` has the same width. */
  function SaturatingIncr(x: nat): nat {
    if x < U64_MAX then x + 1 else x
  }

  /** `usize::saturating_sub(1)`. */
  function SaturatingDecr(x: nat): nat {
    if x > 0 then x - 1 else 0
  }

  /** The concatenation of a list of buffers. */
  function Flatten<T>(parts: seq<seq<T>>): seq<T> {
    if parts == [] then [] else parts[0] + Flatten(parts[1..])
  }

  lemma {:induction false} FlattenAppend<T>(a: seq<seq<T>>, b: seq<seq<T>>)
    ensures Flatten(a + b) == Flatten(a) + Flatten(b)
  {
    if a == [] {
      assert a + b == b;
    } else {
      assert (a + b)[1..] == a[1..] + b;
      FlattenAppend(a[1..], b);
    }
  }
}
