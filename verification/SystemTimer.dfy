/**
 The 64-bit system timer of the BCM2835, read through two 32-bit registers
 (bcm2835_st_read in linuxcnc-remora-spi/bcm2835.c).
 */
module SystemTimer {

  function High(c: nat): (r: nat) {
    c / 0x1_0000_0000 % 0x1_0000_0000
  }

  function Low(c: nat): (r: nat) {
    c % 0x1_0000_0000
  }

  /** What the 64-bit register pair holds at counter value `c`. */
  function Reg(c: nat): (r: nat) {
    High(c) * 0x1_0000_0000 + Low(c)
  }

  lemma RegIsLow64(c: nat)
    ensures Reg(c) == c % 0x1_0000_0000_0000_0000
  {
    var q := c / 0x1_0000_0000;
    var r := q / 0x1_0000_0000;
    assert c == q * 0x1_0000_0000 + c % 0x1_0000_0000 && q == r * 0x1_0000_0000 + q % 0x1_0000_0000;
    assert c == r * (0x1_0000_0000_0000_0000) + (q % 0x1_0000_0000 * 0x1_0000_0000 + c % 0x1_0000_0000);
  }

  /** The value `bcm2835_st_read` makes of the counter values c0 <= c1 <= c2 <= c3 at its register accesses. */
  function Assemble(c0: nat, c1: nat, c2: nat, c3: nat): (r: nat) {
    if High(c2) == High(c0) then High(c2) * 0x1_0000_0000 + Low(c1) else High(c2) * 0x1_0000_0000 + Low(c3)
  }

  /** Below 2^64 - 2^32 ticks in the call, equal high words mean that nothing was carried in between. */
  lemma SameHigh(c0: nat, c2: nat)
    requires c0 <= c2 < c0 + 0x1_0000_0000_0000_0000 - 0x1_0000_0000 && High(c0) == High(c2)
    ensures c0 / 0x1_0000_0000 == c2 / 0x1_0000_0000
  {
    var q0, q2 := c0 / 0x1_0000_0000, c2 / 0x1_0000_0000;
    assert q2 - q0 < 0x1_0000_0000;
    assert (q2 - q0) % 0x1_0000_0000 == 0;
  }

  /**
   The read is linearizable: however long it takes (short of 2^64 - 2^32 ticks), the result is the counter's
   value at an instant `at` of the call.  With up to 2^32 ticks that instant is one of the register
   accesses; the overflow test tells which.
   */
  lemma Linearizable(c0: nat, c1: nat, c2: nat, c3: nat) returns (at: nat)
    requires c0 <= c1 <= c2 <= c3 < c0 + 0x1_0000_0000_0000_0000 - 0x1_0000_0000
    ensures c0 <= at <= c3 && Assemble(c0, c1, c2, c3) == Reg(at)
    ensures c3 <= c0 + 0x1_0000_0000 ==> at == if High(c2) == High(c0) then c1 else c3
  {
    if High(c2) == High(c0) {
      SameHigh(c0, c2);
      at := c1;
    } else {
      var q0, q2, q3 := c0 / 0x1_0000_0000, c2 / 0x1_0000_0000, c3 / 0x1_0000_0000;
      at := q2 * 0x1_0000_0000 + Low(c3);
      assert at / 0x1_0000_0000 == q2 && at % 0x1_0000_0000 == Low(c3);
      assert q0 < q2 <= q3;
      assert c3 <= c0 + 0x1_0000_0000 ==> q3 <= q0 + 1;
    }
  }

  /** The bound is the right one: a read of 2^32 + 1 ticks need not return the counter at any of its accesses. */
  lemma LongReadIsNotAnAccess()
    ensures var c0, c1, c2, c3 := 0x1_0000_0000 - 1, 0x1_0000_0000 + 5, 0x1_0000_0000 + 6, 2 * 0x1_0000_0000;
            && c3 == c0 + 0x1_0000_0000 + 1
            && Assemble(c0, c1, c2, c3) !in {Reg(c0), Reg(c1), Reg(c2), Reg(c3)}
  {
  }

  class SystemTimer {
    const mapped: bool
    const clock: nat -> nat      // the counter at each register access
    var now: nat

    ghost predicate Valid() {
      forall i: nat, j: nat :: i <= j ==> clock(i) <= clock(j)
    }

    constructor (mapped: bool, clock: nat -> nat)
      requires forall i: nat, j: nat :: i <= j ==> clock(i) <= clock(j)
      ensures Valid() && this.mapped == mapped && this.clock == clock && now == 0
    {
      this.mapped, this.clock, now := mapped, clock, 0;
    }

    method ReadCHI() returns (r: nat)
      modifies this
      ensures now == old(now) + 1 && r == High(clock(old(now)))
    {
      r := High(clock(now));
      now := now + 1;
    }

    method ReadCLO() returns (r: nat)
      modifies this
      ensures now == old(now) + 1 && r == Low(clock(old(now)))
    {
      r := Low(clock(now));
      now := now + 1;
    }

    /** `bcm2835_st_read` */
    method StRead() returns (st: nat, ghost at: nat)
      requires Valid()
      requires clock(now + 3) < clock(now) + 0x1_0000_0000_0000_0000 - 0x1_0000_0000
      modifies this
      ensures !mapped ==> st == 0 && now == old(now)
      ensures mapped ==> old(now) + 3 <= now <= old(now) + 4
      ensures mapped ==> st == Reg(at) == at % 0x1_0000_0000_0000_0000 && clock(old(now)) <= at <= clock(now - 1)
      ensures mapped && clock(old(now) + 3) <= clock(old(now)) + 0x1_0000_0000 ==>
                at == if now == old(now) + 3 then clock(old(now) + 1) else clock(old(now) + 3)
    {
      if !mapped {
        return 0, 0;
      }
      ghost var c0, c1, c2, c3 := clock(now), clock(now + 1), clock(now + 2), clock(now + 3);
      assert c0 <= c1 <= c2 <= c3;
      var hi := ReadCHI();
      var lo := ReadCLO();
      st := ReadCHI();
      if st == hi {
        at := Linearizable(c0, c1, c2, c2);
      } else {
        lo := ReadCLO();
        at := Linearizable(c0, c1, c2, c3);
      }
      st := st * 0x1_0000_0000 + lo;
      RegIsLow64(at);
    }

    /** Two reads in sequence never go backwards while the counter fits its 64 bits. */
    method TwoReads() returns (first: nat, second: nat)
      requires Valid() && mapped
      requires forall t: nat :: clock(t) < 0x1_0000_0000_0000_0000 - 0x1_0000_0000
      modifies this
      ensures first <= second
    {
      ghost var at, at';
      first, at := StRead();
      second, at' := StRead();
      RegIsLow64(at);
      RegIsLow64(at');
    }
  }
}
