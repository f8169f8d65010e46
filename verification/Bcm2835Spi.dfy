/**
 The polled exchange of the BCM2835 SPI master (linuxcnc-remora-spi/bcm2835.c).  Unlike the DesignWare driver
 it puts no bound on what is in flight: the hardware holds the clock while the receive FIFO is full.
 */
module Bcm2835Spi {
  import opened Bytes
  import opened SpiEngine

  function Bit(b: byte, i: nat): (r: nat)
    ensures r <= 1
  {
    if HasBit(b, i) then 1 else 0
  }

  function Reverse(b: byte): (r: byte) {
    128 * Bit(b, 0) + 64 * Bit(b, 1) + 32 * Bit(b, 2) + 16 * Bit(b, 3)
    + 8 * Bit(b, 4) + 4 * Bit(b, 5) + 2 * Bit(b, 6) + Bit(b, 7)
  }

  /** `bcm2835_correct_order` */
  function Order(lsbFirst: bool, b: byte): (r: byte) {
    if lsbFirst then Reverse(b) else b
  }

  function OrderAll(lsbFirst: bool, s: seq<byte>): (r: seq<byte>)
    ensures |r| == |s|
  {
    if s == [] then [] else [Order(lsbFirst, s[0])] + OrderAll(lsbFirst, s[1..])
  }

  lemma {:induction false} OrderAllSnoc(lsbFirst: bool, s: seq<byte>, b: byte)
    ensures OrderAll(lsbFirst, s + [b]) == OrderAll(lsbFirst, s) + [Order(lsbFirst, b)]
  {
    if s != [] {
      OrderAllSnoc(lsbFirst, s[1..], b);
      assert (s + [b])[1..] == s[1..] + [b];
    }
  }

  lemma HalfBits(x: nat, c: nat, y: nat)
    requires c <= 1 && x == c + 2 * y
    ensures x % 2 == c && x / 2 == y
  {
  }

  /** The bits of a number made of bits. */
  lemma {:induction false} BitsOf(x: nat, c: seq<nat>, k: nat)
    requires k < |c| && (forall i :: 0 <= i < |c| ==> c[i] <= 1) && x == FromBits(c)
    ensures HasBit(x, k) <==> c[k] == 1
  {
    HalfBits(x, c[0], FromBits(c[1..]));
    if k > 0 {
      BitsOf(x / 2, c[1..], k - 1);
    }
  }

  function FromBits(c: seq<nat>): (x: nat) {
    if c == [] then 0 else c[0] + 2 * FromBits(c[1..])
  }

  /** Bit `k` of a byte on the wire is its mirror image in memory. */
  lemma OrderBits(lsbFirst: bool, b: byte, k: nat)
    requires k < 8
    ensures HasBit(Order(lsbFirst, b), k) <==> HasBit(b, if lsbFirst then 7 - k else k)
  {
    if lsbFirst {
      assert Order(lsbFirst, b) == Reverse(b) && (Bit(b, 7 - k) == 1 <==> HasBit(b, 7 - k));
      hide *;
      var c := [Bit(b, 7), Bit(b, 6), Bit(b, 5), Bit(b, 4), Bit(b, 3), Bit(b, 2), Bit(b, 1), Bit(b, 0)];
      ReverseBits(b, c);
      BitsOf(Reverse(b), c, k);
      assert c[k] == Bit(b, 7 - k);
    }
  }

  lemma ReverseBits(b: byte, c: seq<nat>)
    requires c == [Bit(b, 7), Bit(b, 6), Bit(b, 5), Bit(b, 4), Bit(b, 3), Bit(b, 2), Bit(b, 1), Bit(b, 0)]
    ensures Reverse(b) == FromBits(c)
  {
    hide Bit;
    hide FromBits;
    FromEight(c);
  }

  lemma FromEight(c: seq<nat>)
    requires |c| == 8
    ensures FromBits(c) == c[0] + 2 * c[1] + 4 * c[2] + 8 * c[3] + 16 * c[4] + 32 * c[5] + 64 * c[6] + 128 * c[7]
  {
    assert c[1..][1..] == c[2..] && c[2..][1..] == c[3..] && c[3..][1..] == c[4..] && c[4..][1..] == c[5..];
    assert c[5..][1..] == c[6..] && c[6..][1..] == c[7..] && c[7..][1..] == [];
    assert FromBits(c[7..]) == c[7];
    assert FromBits(c[6..]) == c[6] + 2 * c[7];
    assert FromBits(c[5..]) == c[5] + 2 * FromBits(c[6..]);
    assert FromBits(c[4..]) == c[4] + 2 * FromBits(c[5..]);
    assert FromBits(c[3..]) == c[3] + 2 * FromBits(c[4..]);
    assert FromBits(c[2..]) == c[2] + 2 * FromBits(c[3..]);
    assert FromBits(c[1..]) == c[1] + 2 * FromBits(c[2..]);
  }

  lemma {:induction false} OrderAt(lsbFirst: bool, s: seq<byte>, i: nat)
    requires i < |s|
    ensures OrderAll(lsbFirst, s)[i] == Order(lsbFirst, s[i])
  {
    if i > 0 {
      OrderAt(lsbFirst, s[1..], i - 1);
    }
  }

  /** `t` is `s`, bit by bit, in the bit order chosen. */
  ghost predicate Mirrored(lsbFirst: bool, s: seq<byte>, t: seq<byte>) {
    && |s| == |t|
    && forall i, k :: 0 <= i < |s| && 0 <= k < 8 ==>
         (HasBit(t[i], k) <==> HasBit(s[i], if lsbFirst then 7 - k else k))
  }

  /** With the high bit first, as it is by default, nothing is changed. */
  lemma OrderAllMirrors(lsbFirst: bool, s: seq<byte>)
    ensures Mirrored(lsbFirst, s, OrderAll(lsbFirst, s))
    ensures !lsbFirst ==> OrderAll(lsbFirst, s) == s
  {
    forall i, k | 0 <= i < |s| && 0 <= k < 8
      ensures HasBit(OrderAll(lsbFirst, s)[i], k) <==> HasBit(s[i], if lsbFirst then 7 - k else k)
    {
      OrderAt(lsbFirst, s, i);
      OrderBits(lsbFirst, s[i], k);
    }
    forall i | 0 <= i < |s| ensures OrderAll(lsbFirst, s)[i] == Order(lsbFirst, s[i]) {
      OrderAt(lsbFirst, s, i);
    }
  }

  class Bcm2835Spi {
    const slave: nat -> byte
    const pace: nat -> nat
    ghost const wait: nat -> nat
    var lsbFirst: bool
    var hw: Engine
    var now: nat             // register accesses so far
    var active: bool         // the TA bit

    /** Without the TA bit nothing is shifted, whatever the FIFOs hold. */
    ghost predicate Valid()
      reads this`hw, this`active
    {
      IsCountdown(pace, wait) && Lossless(hw, slave) && hw.stalls && hw.depth >= 1 && (!active ==> hw.shift == [])
    }

    /** Any pace will do that does not stop for good. */
    constructor (depth: nat, slave: nat -> byte, pace: nat -> nat)
      requires Progresses(pace) && depth >= 1
      ensures Valid() && !active && now == 0 && hw.depth == depth && hw.wire == []
      ensures this.slave == slave && this.pace == pace && !lsbFirst
    {
      this.slave, this.pace, lsbFirst := slave, pace, false;
      hw, now, active := Engine(depth, true, [], [], [], [], [], [], 0), 0, false;
      ghost var countdown := CountdownExists(pace);
      wait := countdown;
    }

    /** `bcm2835_spi_setBitOrder` */
    method SetBitOrder(lsbFirst: bool)
      modifies this`lsbFirst
      ensures this.lsbFirst == lsbFirst
    {
      this.lsbFirst := lsbFirst;
    }

    /** No hardware step is possible until the software acts. */
    ghost predicate Stuck()
      reads this`hw
    {
      Idle(hw) || |hw.rx| == hw.depth
    }

    method Tick()
      requires Valid()
      modifies this`hw, this`now
      ensures Valid() && (!active ==> hw == old(hw))
      ensures hw.written == old(hw.written) && hw.drained == old(hw.drained) && hw.depth == old(hw.depth)
      ensures |hw.tx| <= |old(hw.tx)| && |hw.rx| >= |old(hw.rx)| && InFlight(hw) == InFlight(old(hw))
      ensures Work(hw) <= Work(old(hw))
      ensures Work(hw) == Work(old(hw)) ==> hw == old(hw) && (active ==> Stuck() || wait(now) < wait(old(now)))
    {
      if active {
        RunKeeps(hw, slave, pace(now));
        hw := Run(hw, slave, pace(now));
      }
      now := now + 1;
    }

    /** The first inner loop: fills the transmit FIFO.  TXD is read before the count is checked. */
    method FillTx(tbuf: array<byte>, len: nat, start: nat) returns (txCnt: nat)
      requires Valid() && active && start <= len <= tbuf.Length
      modifies this`hw, this`now
      ensures Valid() && start <= txCnt <= len
      ensures hw.drained == old(hw.drained)
      ensures hw.written + OrderAll(lsbFirst, tbuf[txCnt..len])
              == old(hw.written) + OrderAll(lsbFirst, tbuf[start..len])
      ensures InFlight(hw) == InFlight(old(hw)) + txCnt - start
      ensures 4 * (len - txCnt) + Work(hw) <= 4 * (len - start) + Work(old(hw))
      ensures 4 * (len - txCnt) + Work(hw) == 4 * (len - start) + Work(old(hw)) ==>
                && hw == old(hw) && txCnt == start && (Stuck() || wait(now) < wait(old(now)))
                && (txCnt == len || |hw.tx| == hw.depth)
    {
      hide IsCountdown;
      hide Replies;
      hide OrderAll;
      txCnt := start;
      Tick();
      while |hw.tx| < hw.depth && txCnt < len
        invariant Valid() && start <= txCnt <= len
        invariant hw.drained == old(hw.drained)
        invariant hw.written + OrderAll(lsbFirst, tbuf[txCnt..len])
                  == old(hw.written) + OrderAll(lsbFirst, tbuf[start..len])
        invariant InFlight(hw) == InFlight(old(hw)) + txCnt - start
        invariant 4 * (len - txCnt) + Work(hw) <= 4 * (len - start) + Work(old(hw))
        invariant txCnt == start && Work(hw) == Work(old(hw)) ==>
                    hw == old(hw) && (Stuck() || wait(now) < wait(old(now)))
        invariant txCnt > start ==> 4 * (len - txCnt) + Work(hw) < 4 * (len - start) + Work(old(hw))
        decreases len - txCnt
      {
        SendNext(tbuf, len, txCnt);
        txCnt := txCnt + 1;
      }
    }

    /** Writes byte `at` of the buffer and looks at the status again. */
    method SendNext(tbuf: array<byte>, len: nat, at: nat)
      requires Valid() && |hw.tx| < hw.depth && at < len <= tbuf.Length
      modifies this`hw, this`now
      ensures Valid() && hw.drained == old(hw.drained)
      ensures hw.written + OrderAll(lsbFirst, tbuf[at + 1..len]) == old(hw.written) + OrderAll(lsbFirst, tbuf[at..len])
      ensures InFlight(hw) == InFlight(old(hw)) + 1 && Work(hw) <= Work(old(hw)) + 3
    {
      var b := Order(lsbFirst, tbuf[at]);
      Send(b, OrderAll(lsbFirst, tbuf[at + 1..len]));
      assert tbuf[at..len][1..] == tbuf[at + 1..len];
      Tick();
    }

    /** Writes one byte; `ordered` is what is still to follow it. */
    method Send(b: byte, ghost ordered: seq<byte>)
      requires Valid() && |hw.tx| < hw.depth
      modifies this`hw, this`now
      ensures Valid()
      ensures hw.drained == old(hw.drained)
      ensures hw.written + ordered == old(hw.written) + ([b] + ordered)
      ensures InFlight(hw) == InFlight(old(hw)) + 1
      ensures Work(hw) <= Work(old(hw)) + 3
    {
      Tick();
      PushKeeps(hw, slave, b);
      hw := Push(hw, b);
    }

    method Take() returns (b: byte)
      requires Valid() && hw.rx != []
      modifies this`hw, this`now
      ensures Valid()
      ensures hw.written == old(hw.written) && hw.drained == old(hw.drained) + [b]
      ensures InFlight(hw) == InFlight(old(hw)) - 1
      ensures Work(hw) < Work(old(hw))
    {
      Tick();
      PopKeeps(hw, slave);
      var (rxw, after) := Pop(hw);
      hw, b := after, rxw;
    }

    /**
     The second inner loop: empties the receive FIFO.  `raw` are the replies read so far, `base` what was read
     before.
     */
    method DrainRx(rbuf: array<byte>, len: nat, start: nat, ghost base: seq<byte>, ghost raw: seq<byte>)
      returns (rxCnt: nat, ghost got: seq<byte>)
      requires Valid() && active && start <= len <= rbuf.Length && |raw| == start
      requires hw.drained == base + raw && rbuf[..start] == OrderAll(lsbFirst, raw)
      modifies this`hw, this`now, rbuf
      ensures Valid() && start <= rxCnt <= len && |got| == rxCnt
      ensures hw.written == old(hw.written) && InFlight(hw) + rxCnt == InFlight(old(hw)) + start
      ensures hw.drained == base + got && rbuf[..rxCnt] == OrderAll(lsbFirst, got)
      ensures rbuf[rxCnt..] == old(rbuf[..])[rxCnt..]
      ensures Work(hw) <= Work(old(hw))
      ensures Work(hw) == Work(old(hw)) ==>
                && hw == old(hw) && rxCnt == start && (Stuck() || wait(now) < wait(old(now)))
                && (rxCnt == len || hw.rx == [])
    {
      rxCnt, got := start, raw;
      Tick();
      while hw.rx != [] && rxCnt < len
        invariant Valid() && start <= rxCnt <= len && |got| == rxCnt
        invariant hw.written == old(hw.written) && InFlight(hw) + rxCnt == InFlight(old(hw)) + start
        invariant hw.drained == base + got && rbuf[..rxCnt] == OrderAll(lsbFirst, got)
        invariant rbuf[rxCnt..] == old(rbuf[..])[rxCnt..]
        invariant Work(hw) <= Work(old(hw))
        invariant rxCnt == start && Work(hw) == Work(old(hw)) ==>
                    hw == old(hw) && (Stuck() || wait(now) < wait(old(now)))
        invariant rxCnt > start ==> Work(hw) < Work(old(hw))
        decreases len - rxCnt
      {
        ghost var before := rbuf[..];
        got := TakeNext(rbuf, rxCnt, base, got);
        assert before[rxCnt..][1..] == before[rxCnt + 1..];
        rxCnt := rxCnt + 1;
      }
    }

    /** Reads a reply into place `at` of the buffer and looks at the status again. */
    method TakeNext(rbuf: array<byte>, at: nat, ghost base: seq<byte>, ghost raw: seq<byte>)
      returns (ghost got: seq<byte>)
      requires Valid() && hw.rx != [] && |raw| == at < rbuf.Length
      requires hw.drained == base + raw && rbuf[..at] == OrderAll(lsbFirst, raw)
      modifies this`hw, this`now, rbuf
      ensures Valid() && |got| == at + 1 && hw.written == old(hw.written)
      ensures InFlight(hw) == InFlight(old(hw)) - 1 && Work(hw) < Work(old(hw))
      ensures hw.drained == base + got && rbuf[..at + 1] == OrderAll(lsbFirst, got)
      ensures rbuf[at + 1..] == old(rbuf[..])[at + 1..]
    {
      var b := Take();
      rbuf[at] := Order(lsbFirst, b);
      OrderAllSnoc(lsbFirst, raw, b);
      Regroup(base, raw, [b]);
      got := raw + [b];
      Tick();
    }

    /**
     One round of the outer loop; `stray` bytes were on their way before.  With one buffer for both directions, and
     nothing stray, replies only land on bytes already sent.
     */
    method Round(tbuf: array<byte>, rbuf: array<byte>, len: nat, tx0: nat, rx0: nat, ghost stray: nat,
                 ghost base: seq<byte>, ghost raw: seq<byte>)
      returns (txCnt: nat, rxCnt: nat, ghost got: seq<byte>)
      requires Valid() && active && stray <= 1 && rx0 <= tx0 + stray && tx0 <= len <= tbuf.Length && len <= rbuf.Length
      requires |raw| == rx0 <= len && (tx0 < len || rx0 < len) && InFlight(hw) == tx0 + stray - rx0
      requires hw.drained == base + raw && rbuf[..rx0] == OrderAll(lsbFirst, raw)
      modifies this`hw, this`now, rbuf
      ensures Valid() && rx0 <= rxCnt <= txCnt + stray && tx0 <= txCnt <= len && |got| == rxCnt <= len
      ensures InFlight(hw) == txCnt + stray - rxCnt
      ensures tbuf != rbuf || stray == 0 ==>
                hw.written + OrderAll(lsbFirst, tbuf[txCnt..len])
                == old(hw.written) + OrderAll(lsbFirst, old(tbuf[tx0..len]))
      ensures hw.drained == base + got && rbuf[..rxCnt] == OrderAll(lsbFirst, got)
      ensures rbuf[rxCnt..] == old(rbuf[..])[rxCnt..]
      ensures var before, after := 4 * (len - tx0) + Work(old(hw)), 4 * (len - txCnt) + Work(hw);
              after < before || (after == before && ((txCnt == len && rxCnt == len) || wait(now) < wait(old(now))))
    {
      hide IsCountdown;
      hide Lossless;
      hide OrderAll;
      txCnt := FillTx(tbuf, len, tx0);
      rxCnt, got := DrainRx(rbuf, len, rx0, base, raw);
      assert tbuf != rbuf || stray == 0 ==> tbuf[txCnt..len] == old(tbuf[..])[txCnt..len];
    }

    /** The outer loop, from a controller with nothing in its FIFOs. */
    method Exchange(tbuf: array<byte>, rbuf: array<byte>, len: nat) returns (ghost got: seq<byte>)
      requires Valid() && active && InFlight(hw) <= 1
      requires len <= tbuf.Length && len <= rbuf.Length
      modifies this`hw, this`now, rbuf
      ensures Valid() && InFlight(hw) == InFlight(old(hw))
      ensures tbuf != rbuf || InFlight(old(hw)) == 0 ==>
                hw.written == old(hw.written) + OrderAll(lsbFirst, old(tbuf[..len]))
      ensures |got| == len && hw.drained == old(hw.drained) + got
      ensures rbuf[..len] == OrderAll(lsbFirst, got) && rbuf[len..] == old(rbuf[..])[len..]
    {
      hide IsCountdown;
      hide Lossless;
      hide InFlight;
      hide Work;
      var txCnt, rxCnt := 0, 0;
      got := [];
      assert tbuf[0..len] == tbuf[..len];
      while txCnt < len || rxCnt < len
        invariant Valid() && 0 <= rxCnt <= txCnt + InFlight(old(hw)) && 0 <= txCnt <= len && |got| == rxCnt <= len
        invariant InFlight(hw) == txCnt + InFlight(old(hw)) - rxCnt
        invariant tbuf != rbuf || InFlight(old(hw)) == 0 ==>
                    hw.written + OrderAll(lsbFirst, tbuf[txCnt..len])
                    == old(hw.written) + OrderAll(lsbFirst, old(tbuf[..len]))
        invariant hw.drained == old(hw.drained) + got && rbuf[..rxCnt] == OrderAll(lsbFirst, got)
        invariant rbuf[rxCnt..] == old(rbuf[..])[rxCnt..]
        decreases txCnt < len || rxCnt < len, 4 * (len - txCnt) + Work(hw), wait(now)
      {
        txCnt, rxCnt, got := Round(tbuf, rbuf, len, txCnt, rxCnt, InFlight(old(hw)), old(hw.drained), got);
      }
    }

    /** Sets the bit that empties the FIFOs, the controller then being `at`. */
    method ClearFifos() returns (ghost at: Engine)
      requires Valid()
      modifies this`hw, this`now
      ensures Valid() && Lossless(at, slave) && hw == Clear(at)
      ensures at.written == old(hw.written) && at.drained == old(hw.drained)
      ensures !active || Idle(old(hw)) ==> at.shift == [] && at.wire == old(hw.wire)
    {
      Tick();
      at := hw;
      ClearKeeps(hw, slave);
      hw := Clear(hw);
    }

    method SetTa(ta: bool)
      requires Valid() && (ta || Idle(hw))
      modifies this`hw, this`now, this`active
      ensures Valid() && active == ta && hw.written == old(hw.written) && hw.drained == old(hw.drained)
      ensures InFlight(hw) == InFlight(old(hw)) && (!ta ==> hw == old(hw))
    {
      Tick();
      active := ta;
    }

    /** The wait for the DONE bit. */
    method AwaitDone()
      requires Valid() && active && InFlight(hw) <= 1
      modifies this`hw, this`now
      ensures Valid() && Idle(hw) && InFlight(hw) == InFlight(old(hw))
      ensures hw.written == old(hw.written) && hw.drained == old(hw.drained)
    {
      Tick();
      while !Idle(hw)
        invariant Valid() && InFlight(hw) == InFlight(old(hw))
        invariant hw.written == old(hw.written) && hw.drained == old(hw.drained)
        decreases Work(hw), wait(now)
      {
        Tick();
      }
    }

    /**
     `bcm2835_spi_transfernb`.  For any hardware pace that does not stop for good it ends.  `at` is the controller when
     the FIFOs are cleared.  The exchange is correct, whether or not the two buffers are the same one, if the shift
     register is empty then, as it is unless another transfer is under way; otherwise the byte in it goes out first, and
     the replies stored are those from that byte on, one off.
     */
    method TransferNb(tbuf: array<byte>, rbuf: array<byte>, len: nat) returns (ghost got: seq<byte>, ghost at: Engine)
      requires Valid()
      requires len <= tbuf.Length && len <= rbuf.Length
      modifies this`hw, this`now, this`active, rbuf
      ensures Valid() && !active && Idle(hw) && InFlight(hw) == |at.shift| <= 1
      ensures !old(active) || Idle(old(hw)) ==> at.shift == [] && at.wire == old(hw.wire)
      ensures |got| == len && rbuf[..len] == OrderAll(lsbFirst, got) && rbuf[len..] == old(rbuf[..])[len..]
      ensures forall i :: 0 <= i < len ==> got[i] == slave(|at.wire| + i)
      ensures tbuf != rbuf || at.shift == [] ==> hw.wire == at.wire + at.shift + OrderAll(lsbFirst, old(tbuf[..len]))
      // The bits, in the order chosen.
      ensures Mirrored(lsbFirst, got, rbuf[..len]) && (!lsbFirst ==> rbuf[..len] == got)
      ensures tbuf != rbuf || at.shift == [] ==>
                && |hw.wire| == |at.wire| + |at.shift| + len && hw.wire[..|at.wire|] == at.wire
                && var sent := hw.wire[|at.wire| + |at.shift|..];
                   Mirrored(lsbFirst, old(tbuf[..len]), sent) && (!lsbFirst ==> sent == old(tbuf[..len]))
    {
      hide IsCountdown;
      hide Replies;
      hide OrderAll;
      at := ClearFifos();
      ghost var hw0 := hw;
      SetTa(true);
      got := Exchange(tbuf, rbuf, len);
      AwaitDone();
      RepliesFrom(hw0, hw, slave, got);
      if tbuf != rbuf || at.shift == [] {
        SentFrom(hw0, hw, slave, OrderAll(lsbFirst, old(tbuf[..len])));
      }
      SetTa(false);
      OrderAllMirrors(lsbFirst, got);
      OrderAllMirrors(lsbFirst, old(tbuf[..len]));
    }

    /**
     `bcm2835_spi_transfern`: one buffer for both directions gives what two would have given, no other transfer being
     under way.
     */
    method TransferN(buf: array<byte>, len: nat) returns (ghost got: seq<byte>, ghost at: Engine)
      requires Valid() && len <= buf.Length
      modifies this`hw, this`now, this`active, buf
      ensures Valid() && !active && Idle(hw) && InFlight(hw) == |at.shift| <= 1
      ensures !old(active) || Idle(old(hw)) ==> at.shift == [] && at.wire == old(hw.wire)
      ensures |got| == len && buf[..len] == OrderAll(lsbFirst, got) && buf[len..] == old(buf[..])[len..]
      ensures forall i :: 0 <= i < len ==> got[i] == slave(|at.wire| + i)
      ensures at.shift == [] ==> hw.wire == at.wire + OrderAll(lsbFirst, old(buf[..len]))
      ensures Mirrored(lsbFirst, got, buf[..len]) && (!lsbFirst ==> buf[..len] == got)
      ensures at.shift == [] ==>
                && |hw.wire| == |at.wire| + len && hw.wire[..|at.wire|] == at.wire
                && Mirrored(lsbFirst, old(buf[..len]), hw.wire[|at.wire|..])
                && (!lsbFirst ==> hw.wire[|at.wire|..] == old(buf[..len]))
    {
      got, at := TransferNb(buf, buf, len);
    }
  }
}
