/**
 The byte-wise double read of a 16-bit size register that the chip may change between any two accesses
 (getSn_RX_RSR and getSn_TX_FSR in W5100/w5100.c, W5100S/w5100s.c and W5200/w5200.c).
 */
module DoubleRead {
  /** A 16-bit value put together from its high byte at one access and its low byte at the next. */
  function Paste(r0: nat, r1: nat): (r: nat) {
    r0 / 0x100 * 0x100 + r1 % 0x100
  }

  /** From access `t` on the register only grows. */
  ghost predicate Grows(reg: nat -> nat, t: nat) {
    && (forall i: nat, j: nat :: t <= i <= j ==> reg(i) <= reg(j))
    && (forall i: nat :: t <= i ==> reg(i) < 0x1_0000)
  }

  /** Two equal readings of a growing register are its value at the second access. */
  lemma MatchIsSnapshot(r0: nat, r1: nat, r2: nat, r3: nat)
    requires r0 <= r1 <= r2 <= r3 < 0x1_0000
    requires Paste(r0, r1) == Paste(r2, r3)
    ensures Paste(r0, r1) == r1
  {
    assert r0 / 0x100 <= r1 / 0x100 <= r2 / 0x100;
    assert Paste(r0, r1) / 0x100 == r0 / 0x100 && Paste(r2, r3) / 0x100 == r2 / 0x100;
  }

  /** Readings that differ mean that the register moved. */
  lemma MismatchMeansGrowth(r0: nat, r1: nat, r2: nat, r3: nat)
    requires r0 <= r1 <= r2 <= r3 < 0x1_0000
    requires Paste(r0, r1) != Paste(r2, r3)
    ensures r0 < r3
  {
  }

  /**
   A zero first reading is trusted without a second one.  It comes of a high byte and a low byte of zero, so it is
   wrong if and only if the register went from below 256 to a multiple of 256 between the two accesses.
   */
  lemma SpuriousZero(r0: nat, r1: nat)
    requires r0 <= r1 < 0x1_0000
    ensures Paste(r0, r1) == 0 <==> r0 < 0x100 && r1 % 0x100 == 0
    ensures Paste(r0, r1) == 0 && r1 != 0 <==> r0 < 0x100 <= r1 && r1 % 0x100 == 0
  {
  }

  /** One pass of the loop; `stale` is what `val` held before it. */
  method Attempt(reg: nat -> nat, t: nat, stale: nat) returns (val1: nat, val: nat, next: nat)
    requires Grows(reg, t)
    requires stale != 0 ==> reg(t) > 0
    ensures t + 2 <= next <= t + 4
    ensures val == val1 ==> val <= reg(next - 1)
    ensures val == val1 && val != 0 ==> val == reg(t + 1)
    ensures val == val1 == 0 ==> reg(t) < 0x100
    ensures val != val1 ==> reg(t) < reg(next - 1)
    ensures val != 0 ==> reg(next) > 0
    ensures reg(t) == reg(next - 1) ==> val == val1 == reg(t)
    ensures val == val1 ==> val == Paste(reg(next - 2), reg(next - 1))
    ensures Paste(reg(t), reg(t + 1)) == 0 ==> val1 == 0 && val == stale && next == t + 2
  {
    assert reg(t) <= reg(t + 1) <= reg(t + 2) <= reg(t + 3) <= reg(t + 4);
    val := stale;
    val1 := Paste(reg(t), reg(t + 1));
    next := t + 2;
    if val1 != 0 {
      val := Paste(reg(t + 2), reg(t + 3));
      next := t + 4;
      if val == val1 {
        MatchIsSnapshot(reg(t), reg(t + 1), reg(t + 2), reg(t + 3));
      } else {
        MismatchMeansGrowth(reg(t), reg(t + 1), reg(t + 2), reg(t + 3));
      }
    }
  }

  /**
   The retry loop.  `reg(i)` is the register at access `i`; `t` is the access now due.  It always ends.  A
   non-zero result is the register's value at the access `at`; no result exceeds the value at the end; an
   undisturbed read is exact.  A zero result means that the register was below 256 to begin with; exactly, the last
   two accesses found a high byte and a low byte of zero, so the zero is wrong at the end if and only if the register
   went from below 256 to a multiple of 256 between them.
   */
  method ReadSize(reg: nat -> nat, t: nat) returns (val: nat, next: nat, ghost at: nat)
    requires Grows(reg, t)
    ensures t < next && val <= reg(next - 1)
    ensures val != 0 ==> t <= at < next && reg(at) == val
    ensures reg(t) == reg(next - 1) ==> val == reg(t)
    ensures val == 0 ==> reg(t) < 0x100
    ensures t + 2 <= next && (val == 0 <==> reg(next - 2) < 0x100 && reg(next - 1) % 0x100 == 0)
    ensures Paste(reg(t), reg(t + 1)) == 0 ==> val == 0 && next == t + 2
  {
    next, at, val := t, t, 0;
    while true
      invariant t <= next
      invariant next > t ==> reg(t) < reg(next - 1)
      invariant val != 0 ==> reg(next) > 0
      invariant next == t ==> val == 0
      invariant next > t ==> Paste(reg(t), reg(t + 1)) != 0
      decreases 0x1_0000 - reg(next)
    {
      at := next + 1;
      var val1;
      val1, val, next := Attempt(reg, next, val);
      if val == val1 {
        break;
      }
    }
  }

  /** Such a read: 255 bytes are there, one more arrives between the two accesses, and nothing is reported. */
  method WrongZero() returns (reg: nat -> nat, val: nat, next: nat)
    ensures Grows(reg, 0) && reg(0) == 255 && val == 0 && next > 0 && reg(next - 1) == 256
  {
    ghost var at;
    reg := (i: nat) => if i == 0 then 255 else 256;
    val, next, at := ReadSize(reg, 0);
  }
}
