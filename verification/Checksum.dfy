/**
 The Internet checksum (RFC 1071) as lib/W5500_Networking/arch/checksum.c computes it: 32 bits at a time,
 two words per iteration, with the carries folded at the end and the bytes swapped when the data starts at
 an odd address.  The reference definition is section 1 of RFC 1071: 16-bit one's complement addition of
 little-endian words, the last one padded with a zero byte.
 */
module Checksum {
  import opened Bytes

  // ----- The reference definition ------------------------------------------------------------

  /** 16-bit one's complement addition: a carry out of bit 15 is added back at bit 0. */
  function OnesAdd(a: nat, b: nat): (r: nat)
    requires a <= 0xFFFF && b <= 0xFFFF
    ensures r <= 0xFFFF
  {
    if a + b > 0xFFFF then a + b - 0xFFFF else a + b
  }

  /** The little-endian 16-bit word at offset `i`. */
  function Half(data: seq<byte>, i: nat): (r: nat)
    requires i + 2 <= |data|
    ensures r < 0x1_0000
  {
    var low: int, high: int := data[i], data[i + 1];
    low + 0x100 * high
  }

  function OnesSum(data: seq<byte>): (r: nat)
    ensures r <= 0xFFFF
  {
    if data == [] then 0
    else if |data| == 1 then data[0]
    else OnesAdd(Half(data, 0), OnesSum(data[2..]))
  }

  /** The example of section 3 of RFC 1071: the sum is 0xddf2 there, with the bytes of each word the other way. */
  lemma SectionThree()
    ensures OnesSum([0x00, 0x01, 0xf2, 0x03, 0xf4, 0xf5, 0xf6, 0xf7]) == 0xf2dd
  {
    var d: seq<byte> := [0x00, 0x01, 0xf2, 0x03, 0xf4, 0xf5, 0xf6, 0xf7];
    assert d[2..][2..] == d[4..] && d[4..][2..] == d[6..] && d[6..][2..] == [];
    assert OnesSum(d[6..]) == 0xf7f6;
    assert OnesSum(d[4..]) == OnesAdd(0xf5f4, 0xf7f6);
    assert OnesSum(d[2..]) == OnesAdd(0x03f2, 0xedeb);
    assert OnesSum(d) == OnesAdd(0x0100, 0xf1dd);
  }

  // ----- Sums modulo 65535 ---------------------------------------------------------------------

  function Multiple(k: int): (r: int) {
    0xFFFF * k
  }

  /** `x` stands for the natural number `y`: same residue modulo 65535, and zero only for zero. */
  ghost predicate StandsFor(x: int, y: int) {
    && (exists k: int :: x == y + Multiple(k))
    && (x == 0 <==> y == 0)
  }

  lemma StandsForSame(x: nat)
    ensures StandsFor(x, x)
  {
    assert x == x + Multiple(0);
  }

  /** Adding a multiple of 65535 does not change what a value stands for, unless it makes or unmakes a zero. */
  lemma StandsForShift(x: int, s: int, k: int, y: int)
    requires StandsFor(x, s) && y == x + Multiple(k) && (y == 0 <==> x == 0)
    ensures StandsFor(y, s)
  {
    var j: int :| x == s + Multiple(j);
    assert y == s + Multiple(j + k);
  }

  lemma StandsForAdd(a: nat, sa: nat, b: nat, sb: nat)
    requires StandsFor(a, sa) && StandsFor(b, sb)
    ensures StandsFor(a + b, sa + sb)
  {
    var j: int :| a == sa + Multiple(j);
    var k: int :| b == sb + Multiple(k);
    assert a + b == sa + sb + Multiple(j + k);
  }

  /** Two 16-bit values that stand for the same number are equal. */
  lemma StandsForUnique(x: nat, y: nat, s: nat)
    requires x <= 0xFFFF && y <= 0xFFFF
    requires StandsFor(x, s) && StandsFor(y, s)
    ensures x == y
  {
    var j: int :| x == s + Multiple(j);
    var k: int :| y == s + Multiple(k);
    assert x - y == 0xFFFF * (j - k);
  }

  /** Weight of byte `i` when the low byte of a word is at the even (or, if `odd`, the odd) indices. */
  function Weight(i: nat, odd: bool): (r: nat) {
    if (i % 2 == 1) == odd then 1 else 0x100
  }

  /** The plain (unbounded) sum of the first `n` bytes, each at its place in its word. */
  function PlainSum(data: seq<byte>, odd: bool, n: nat): (r: nat)
    requires n <= |data|
  {
    if n == 0 then 0 else PlainSum(data, odd, n - 1) + Weight(n - 1, odd) * data[n - 1]
  }

  lemma {:induction false} PlainSumFromFront(data: seq<byte>, odd: bool, n: nat)
    requires 0 < n <= |data|
    ensures PlainSum(data, odd, n) == Weight(0, odd) * data[0] + PlainSum(data[1..], !odd, n - 1)
  {
    if n > 1 {
      PlainSumFromFront(data, odd, n - 1);
      assert data[1..][n - 2] == data[n - 1];
      assert Weight(n - 1, odd) == Weight(n - 2, !odd);
    }
  }

  /** The reference sum stands for the plain sum. */
  lemma {:induction false} OnesSumStandsForPlainSum(data: seq<byte>)
    ensures StandsFor(OnesSum(data), PlainSum(data, false, |data|))
  {
    if |data| <= 1 {
      assert |data| == 1 ==> PlainSum(data, false, 0) == 0;
      StandsForSame(OnesSum(data));
    } else {
      var rest, half := data[2..], Half(data, 0);
      OnesSumStandsForPlainSum(rest);
      PlainSumSplit(data);
      assert OnesSum(data) == OnesAdd(half, OnesSum(rest));
      hide OnesSum;
      hide PlainSum;
      hide Half;
      StandsForSame(half);
      StandsForAdd(half, half, OnesSum(rest), PlainSum(rest, false, |rest|));
      var plain := half + OnesSum(rest);
      hide StandsFor;
      StandsForShift(plain, PlainSum(data, false, |data|), if plain > 0xFFFF then -1 else 0, OnesSum(data));
    }
  }

  lemma PlainSumSplit(data: seq<byte>)
    requires |data| >= 2
    ensures PlainSum(data, false, |data|) == Half(data, 0) + PlainSum(data[2..], false, |data| - 2)
  {
    PlainSumFromFront(data, false, |data|);
    PlainSumFromFront(data[1..], true, |data| - 1);
    assert data[1..][1..] == data[2..];
  }

  lemma {:induction false} PlainSumZero(data: seq<byte>, odd: bool, n: nat)
    requires n <= |data|
    ensures PlainSum(data, odd, n) == 0 <==> forall i :: 0 <= i < n ==> data[i] == 0
  {
    if n > 0 {
      PlainSumZero(data, odd, n - 1);
      var w := Weight(n - 1, odd);
      assert w * data[n - 1] == 0 <==> data[n - 1] == 0;
    }
  }

  /** The reference sum is 0 exactly for data that is all zero. */
  lemma OnesSumZero(data: seq<byte>)
    ensures OnesSum(data) == 0 <==> forall i :: 0 <= i < |data| ==> data[i] == 0
  {
    OnesSumStandsForPlainSum(data);
    PlainSumZero(data, false, |data|);
  }

  // ----- Byte order (section 2 (B) of RFC 1071) --------------------------------------------------

  /** `rev16` on a 16-bit value. */
  function Swap(x: nat): (r: nat)
    requires x <= 0xFFFF
    ensures r <= 0xFFFF
  {
    (x % 0x100) * 0x100 + x / 0x100
  }

  /** Both sums over the same bytes differ by a factor of 256, modulo 65535. */
  lemma {:induction false} PlainSumsCongruent(data: seq<byte>, n: nat) returns (k: int)
    requires n <= |data|
    ensures 0x100 * PlainSum(data, true, n) == PlainSum(data, false, n) + Multiple(k)
  {
    k := 0;
    if n > 0 {
      k := PlainSumsCongruent(data, n - 1);
      var b: int := data[n - 1];
      if Weight(n - 1, true) == 0x100 {
        k := k + b;
      }
    }
  }

  lemma SwapStandsFor(x: nat, data: seq<byte>)
    requires x <= 0xFFFF && StandsFor(x, PlainSum(data, true, |data|))
    ensures StandsFor(Swap(x), PlainSum(data, false, |data|))
  {
    var o, e: int := PlainSum(data, true, |data|), PlainSum(data, false, |data|);
    PlainSumZero(data, true, |data|);
    PlainSumZero(data, false, |data|);
    var j: int :| x == o + Multiple(j);
    var k := PlainSumsCongruent(data, |data|);
    var h := x / 0x100;
    assert x == 0x100 * h + x % 0x100;
    assert Swap(x) == 0x100 * x - Multiple(h);
    assert Swap(x) == e + Multiple(0x100 * j + k - h);
  }

  function SwapPairs(data: seq<byte>): (r: seq<byte>)
    requires |data| % 2 == 0
    ensures |r| == |data|
  {
    if data == [] then [] else [data[1], data[0]] + SwapPairs(data[2..])
  }

  lemma {:induction false} PlainSumOfSwapped(data: seq<byte>)
    requires |data| % 2 == 0
    ensures PlainSum(SwapPairs(data), false, |data|) == PlainSum(data, true, |data|)
  {
    if data != [] {
      var rest, sw := data[2..], SwapPairs(data);
      PlainSumOfSwapped(rest);
      PlainSumFromFront(data, true, |data|);
      PlainSumFromFront(data[1..], false, |data| - 1);
      assert data[1..][1..] == rest;
      PlainSumFromFront(sw, false, |data|);
      PlainSumFromFront(sw[1..], true, |data| - 1);
      assert sw[1..][1..] == SwapPairs(rest);
    }
  }

  /** Byte order independence: swapping the bytes of every word swaps the bytes of the sum. */
  lemma ByteOrderIndependence(data: seq<byte>)
    requires |data| % 2 == 0
    ensures OnesSum(data) == Swap(OnesSum(SwapPairs(data)))
  {
    var sw := SwapPairs(data);
    OnesSumStandsForPlainSum(data);
    OnesSumStandsForPlainSum(sw);
    PlainSumOfSwapped(data);
    SwapStandsFor(OnesSum(sw), data);
    StandsForUnique(OnesSum(data), Swap(OnesSum(sw)), PlainSum(data, false, |data|));
  }

  // ----- The machine code ------------------------------------------------------------------------

  /** `adds` followed by `adc #0`: a 32-bit addition with end-around carry. */
  function AddsAdc(a: nat, b: nat): (r: nat)
    requires a < 0x1_0000_0000 && b < 0x1_0000_0000
    ensures r < 0x1_0000_0000
  {
    (a + b) % 0x1_0000_0000 + (if a + b >= 0x1_0000_0000 then 1 else 0)
  }

  lemma AddsAdcStandsFor(a: nat, sa: nat, b: nat, sb: nat)
    requires a < 0x1_0000_0000 && b < 0x1_0000_0000
    requires StandsFor(a, sa) && StandsFor(b, sb)
    ensures StandsFor(AddsAdc(a, b), sa + sb)
  {
    StandsForAdd(a, sa, b, sb);
    StandsForShift(a + b, sa + sb, if a + b >= 0x1_0000_0000 then -0x1_0001 else 0, AddsAdc(a, b));
  }

  /** One `ubfx`/`ubfx`/`adds` group at label 8. */
  function Fold(r2: nat): (r: nat) {
    r2 / 0x1_0000 + r2 % 0x1_0000
  }

  lemma FoldStandsFor(r2: nat, s: nat)
    requires r2 < 0x1_0000_0000 && StandsFor(r2, s)
    ensures StandsFor(Fold(r2), s)
    ensures Fold(r2) <= 0x1_FFFE
    ensures r2 <= 0x1_FFFE ==> Fold(r2) <= 0xFFFF
  {
    var h := r2 / 0x1_0000;
    assert r2 == 0x1_0000 * h + r2 % 0x1_0000;
    assert Fold(r2) == r2 + Multiple(-h);
    StandsForShift(r2, s, -h, Fold(r2));
  }

  function Load32(data: seq<byte>, i: nat): (r: nat)
    requires i + 4 <= |data|
    ensures r < 0x1_0000_0000
  {
    Half(data, i) + 0x1_0000 * Half(data, i + 2)
  }

  lemma HalfSum(data: seq<byte>, odd: bool, i: nat)
    requires i + 2 <= |data| && Weight(i, odd) == 1
    ensures PlainSum(data, odd, i + 2) == PlainSum(data, odd, i) + Half(data, i)
  {
    assert PlainSum(data, odd, i + 1) == PlainSum(data, odd, i) + data[i];
    assert Weight(i + 1, odd) == 0x100;
  }

  lemma StandsForOnesSum(r: nat, data: seq<byte>)
    requires r <= 0xFFFF && StandsFor(r, PlainSum(data, false, |data|))
    ensures r == OnesSum(data)
  {
    OnesSumStandsForPlainSum(data);
    StandsForUnique(r, OnesSum(data), PlainSum(data, false, |data|));
  }

  /** The alignment steps: the first bytes are summed without a carry. */
  lemma AlignStep(data: seq<byte>, odd: bool, i: nat, r2: nat)
    requires i + 2 <= |data| && Weight(i, odd) == 1
    requires r2 < 0x1_0000 && StandsFor(r2, PlainSum(data, odd, i))
    ensures r2 + Half(data, i) < 0x2_0000
    ensures Weight(i + 2, odd) == 1
    ensures StandsFor(r2 + Half(data, i), PlainSum(data, odd, i + 2))
  {
    HalfSum(data, odd, i);
    StandsForSame(Half(data, i));
    StandsForAdd(r2, PlainSum(data, odd, i), Half(data, i), Half(data, i));
  }

  lemma HalfStep(data: seq<byte>, odd: bool, i: nat, r2: nat)
    requires i + 2 <= |data| && Weight(i, odd) == 1
    requires r2 < 0x1_0000_0000 && StandsFor(r2, PlainSum(data, odd, i))
    ensures Weight(i + 2, odd) == 1
    ensures StandsFor(AddsAdc(r2, Half(data, i)), PlainSum(data, odd, i + 2))
  {
    HalfSum(data, odd, i);
    StandsForSame(Half(data, i));
    AddsAdcStandsFor(r2, PlainSum(data, odd, i), Half(data, i), Half(data, i));
  }

  lemma WordStep(data: seq<byte>, odd: bool, i: nat, r2: nat)
    requires i + 4 <= |data| && Weight(i, odd) == 1
    requires r2 < 0x1_0000_0000 && StandsFor(r2, PlainSum(data, odd, i))
    ensures Weight(i + 4, odd) == 1
    ensures StandsFor(AddsAdc(r2, Load32(data, i)), PlainSum(data, odd, i + 4))
  {
    HalfSum(data, odd, i);
    HalfSum(data, odd, i + 2);
    var halves := Half(data, i) + Half(data, i + 2);
    StandsForSame(halves);
    StandsForShift(halves, halves, Half(data, i + 2), Load32(data, i));
    AddsAdcStandsFor(r2, PlainSum(data, odd, i), Load32(data, i), halves);
  }

  lemma ByteStep(data: seq<byte>, odd: bool, i: nat, r2: nat)
    requires i + 1 == |data| && Weight(i, odd) == 1
    requires r2 < 0x1_0000_0000 && StandsFor(r2, PlainSum(data, odd, i))
    ensures StandsFor(AddsAdc(r2, data[i]), PlainSum(data, odd, |data|))
  {
    StandsForSame(data[i]);
    AddsAdcStandsFor(r2, PlainSum(data, odd, i), data[i], data[i]);
  }

  /**
   `thumb2_checksum`.  `data` are the bytes at addresses `addr`, `addr + 1`, ...; `i` is the offset of the
   pointer register r0 and `r1` the number of bytes left.  For every alignment and length the result is the
   reference sum.
   */
  method Thumb2Checksum(data: seq<byte>, addr: nat) returns (r0: nat)
    ensures r0 == OnesSum(data)
    ensures r0 == 0 <==> forall k :: 0 <= k < |data| ==> data[k] == 0
  {
    var r1: int := |data|;
    var r2: nat := 0;
    var r3 := addr % 2;
    var i := 0;
    ghost var odd := r3 == 1;
    OnesSumZero(data);
    if r3 != 0 {
      if r1 == 0 {
        return r2;
      }
      r2 := 0x100 * (data[0] as int);
      i, r1 := 1, r1 - 1;
      assert PlainSum(data, odd, 0) == 0;
    }
    assert Weight(i, odd) == 1;
    StandsForSame(r2);
    assert StandsFor(r2, PlainSum(data, odd, i));
    var r4 := (addr + i) % 4;
    var tailOnly := r4 != 0 && r1 < 2;
    if r4 != 0 && !tailOnly {
      AlignStep(data, odd, i, r2);
      r2 := r2 + Half(data, i);
      i, r1 := i + 2, r1 - 2;
    }
    if !tailOnly {
      while r1 >= 8
        invariant 0 <= i && i + r1 == |data| && r1 >= 0
        invariant Weight(i, odd) == 1
        invariant 0 <= r2 < 0x1_0000_0000 && StandsFor(r2, PlainSum(data, odd, i))
      {
        WordStep(data, odd, i, r2);
        r2 := AddsAdc(r2, Load32(data, i));
        WordStep(data, odd, i + 4, r2);
        r2 := AddsAdc(r2, Load32(data, i + 4));
        i, r1 := i + 8, r1 - 8;
      }
      while r1 >= 2
        invariant 0 <= i && i + r1 == |data| && r1 >= 0
        invariant Weight(i, odd) == 1
        invariant 0 <= r2 < 0x1_0000_0000 && StandsFor(r2, PlainSum(data, odd, i))
      {
        HalfStep(data, odd, i, r2);
        r2 := AddsAdc(r2, Half(data, i));
        i, r1 := i + 2, r1 - 2;
      }
    }
    if r1 != 0 {
      ByteStep(data, odd, i, r2);
      r2 := AddsAdc(r2, data[i]);
      i := i + 1;
    }
    FoldStandsFor(r2, PlainSum(data, odd, |data|));
    r2 := Fold(r2);
    FoldStandsFor(r2, PlainSum(data, odd, |data|));
    r2 := Fold(r2);
    if r3 != 0 {
      SwapStandsFor(r2, data);
      r2 := Swap(r2);
    }
    StandsForOnesSum(r2, data);
    r0 := r2;
  }
}
