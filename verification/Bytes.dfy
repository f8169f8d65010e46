/** Bytes and their bits. */
module Bytes {
  type byte = x: int | 0 <= x < 0x100

  lemma Regroup(a: seq<byte>, b: seq<byte>, c: seq<byte>)
    ensures a + b + c == a + (b + c)
  {
  }

  /** Bit `i` of `v` is set. */
  predicate HasBit(v: nat, i: nat)
    decreases i
  {
    if i == 0 then v % 2 == 1 else HasBit(v / 2, i - 1)
  }

  lemma {:induction false} NoBits(i: nat)
    ensures !HasBit(0, i)
  {
    if i > 0 {
      NoBits(i - 1);
    }
  }
}
