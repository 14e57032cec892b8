/** Bytes, the 64-bit `size_t`, and lists of byte strings. */
module Bytes {
  type Byte = x: int | 0 <= x < 256

  const SIZE_T: nat := 0x1_0000_0000_0000_0000

  /** `a + b` and `a - b` as `size_t` computes them. */
  function Plus(a: nat, b: nat): nat { (a + b) % SIZE_T }

  function Minus(a: nat, b: nat): nat { (a - b) % SIZE_T }

  function Zeros(n: nat): (s: seq<Byte>)
    ensures |s| == n && forall i | 0 <= i < n :: s[i] == 0
  {
    seq(n, _ => 0)
  }

  /** The list of strings joined into one; recursion peels off the last, as runs grow. */
  function Concat(chunks: seq<seq<Byte>>): seq<Byte> {
    if chunks == [] then [] else Concat(chunks[..|chunks| - 1]) + chunks[|chunks| - 1]
  }

  lemma ConcatSnoc(chunks: seq<seq<Byte>>, c: seq<Byte>)
    ensures Concat(chunks + [c]) == Concat(chunks) + c
  {
  }

  function Sum(ns: seq<nat>): nat {
    if ns == [] then 0 else Sum(ns[..|ns| - 1]) + ns[|ns| - 1]
  }
}
