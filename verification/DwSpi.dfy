/**
 The polled full-duplex transfer of the DesignWare SPI master (linuxcnc-remora-spi/spi-dw.c), with the
 8-bit frames that rp1spi_init selects.  Between any two register accesses the hardware makes as many steps
 as `pace` allows it.
 */
module DwSpi {
  import opened Bytes
  import opened SpiEngine

  /** `s` with `got` written over it from index `from` on. */
  function Stored(s: seq<byte>, from: nat, got: seq<byte>): (r: seq<byte>)
    requires from + |got| <= |s|
    ensures |r| == |s|
  {
    s[..from] + got + s[from + |got|..]
  }

  lemma StoredMore(s: seq<byte>, from: nat, a: seq<byte>, b: seq<byte>)
    requires from + |a| + |b| <= |s|
    ensures Stored(Stored(s, from, a), from + |a|, b) == Stored(s, from, a + b)
  {
  }

  lemma StoredFromStart(s: seq<byte>, got: seq<byte>)
    requires |got| <= |s|
    ensures Stored(s, 0, got) == got + s[|got|..]
  {
  }

  class DwSpi {
    const fifoLen: nat
    const slave: nat -> byte
    const pace: nat -> nat
    ghost const wait: nat -> nat
    var hw: Engine
    var now: nat             // register accesses so far
    var ser: nat             // slave enable register
    /** The slave enable register as each byte on the wire went out, and how many had when it was last written. */
    ghost var wireSel: seq<nat>
    ghost var selected: nat
    var tx: array?<byte>
    var txPos: nat
    var txLen: nat
    var rx: array?<byte>
    var rxPos: nat
    var rxLen: nat

    /** The conservation invariant: what is in flight is the gap between the two lengths. */
    ghost predicate Valid()
      reads this
    {
      && IsCountdown(pace, wait)
      && hw.depth == fifoLen && !hw.stalls
      && Lossless(hw, slave)
      && selected <= |hw.wire| == |wireSel| && (forall k :: selected <= k < |wireSel| ==> wireSel[k] == ser)
      && txLen <= rxLen
      && InFlight(hw) == rxLen - txLen <= fifoLen
      && (tx != null ==> txPos + txLen <= tx.Length)
      && (rx != null ==> rxPos + rxLen <= rx.Length)
      && (tx != null && tx == rx ==> rxPos + rxLen == txPos + txLen)
    }

    /** Any pace will do that does not stop for good. */
    constructor (fifoLen: nat, slave: nat -> byte, pace: nat -> nat)
      requires Progresses(pace)
      ensures Valid() && txLen == 0 && rxLen == 0 && tx == null && rx == null && now == 0 && hw.wire == [] && ser == 0
      ensures this.fifoLen == fifoLen && this.slave == slave && this.pace == pace
    {
      this.fifoLen, this.slave, this.pace := fifoLen, slave, pace;
      hw, now, ser := Engine(fifoLen, false, [], [], [], [], [], [], 0), 0, 0;
      tx, txPos, txLen, rx, rxPos, rxLen := null, 0, 0, null, 0, 0;
      wireSel, selected := [], 0;
      ghost var countdown := CountdownExists(pace);
      wait := countdown;
    }

    ghost function Measure(): (r: nat)
      reads this
    {
      4 * txLen + Work(hw)
    }

    /** The bytes still to be written: zeros when there is no transmit buffer. */
    ghost function Source(): (s: seq<byte>)
      requires tx != null ==> txPos + txLen <= tx.Length
      reads this`tx, this`txPos, this`txLen, tx
      ensures |s| == txLen
    {
      if tx == null then seq(txLen, _ => 0) else tx[txPos..txPos + txLen]
    }

    /** A register access: the hardware first makes the steps due at this instant; with no slave enabled, none. */
    method Tick()
      requires Valid()
      modifies this`hw, this`now, this`wireSel
      ensures Valid()
      ensures now == old(now) + 1
      ensures hw.written == old(hw.written) && hw.drained == old(hw.drained)
      ensures |hw.tx| <= |old(hw.tx)| && |hw.rx| >= |old(hw.rx)|
      ensures Work(hw) <= Work(old(hw))
      ensures Work(hw) == Work(old(hw)) ==> hw == old(hw) && (ser != 0 ==> Idle(hw) || wait(now) < wait(old(now)))
      ensures old(wireSel) <= wireSel
              && (ser == 0 || InFlight(old(hw)) == 0 ==> hw == old(hw) && wireSel == old(wireSel))
    {
      if ser != 0 {
        RunKeeps(hw, slave, pace(now));
        ghost var sel, n := ser, |hw.wire|;
        hw := Run(hw, slave, pace(now));
        wireSel := wireSel + seq(|hw.wire| - n, _ => sel);
      }
      now := now + 1;
    }

    /** `dw_spi_tx_max`: TX room now, and a software bound on what is in flight. */
    method TxMax() returns (max: nat)
      requires Valid()
      modifies this`hw, this`now, this`wireSel
      ensures Valid()
      ensures hw.written == old(hw.written) && hw.drained == old(hw.drained)
      ensures max <= txLen && |hw.tx| + max <= fifoLen && (rxLen - txLen) + max <= fifoLen
      ensures Measure() <= old(Measure())
      ensures Measure() == old(Measure()) ==>
                && hw == old(hw) && (ser != 0 ==> Idle(hw) || wait(now) < wait(old(now)))
                && (max == 0 ==> txLen == 0 || |hw.tx| == fifoLen || rxLen - txLen == fifoLen)
    {
      Tick();
      var txRoom := fifoLen - |hw.tx|;
      var rxtxGap := fifoLen - (rxLen - txLen);
      var min := if txLen < txRoom then txLen else txRoom;
      max := if min < rxtxGap then min else rxtxGap;
    }

    /**
     `dw_spi_rx_max`.  The MIN macro reads RXFLR twice when the first reading is not above rx_len; the second
     reading may be larger, yet is never above rx_len.
     */
    method RxMax() returns (max: nat)
      requires Valid()
      modifies this`hw, this`now, this`wireSel
      ensures Valid()
      ensures hw.written == old(hw.written) && hw.drained == old(hw.drained)
      ensures max <= rxLen && max <= |hw.rx|
      ensures Measure() <= old(Measure())
      ensures Measure() == old(Measure()) ==>
                && hw == old(hw) && (ser != 0 ==> Idle(hw) || wait(now) < wait(old(now)))
                && (max == 0 ==> rxLen == 0 || hw.rx == [])
    {
      Tick();
      if rxLen < |hw.rx| {
        max := rxLen;
      } else {
        Tick();
        max := |hw.rx|;
      }
    }

    method SendOne(txw: byte)
      requires tx == null ==> txw == 0
      requires tx != null ==> txPos < tx.Length && txw == tx[txPos]
      requires Valid() && txLen > 0 && |hw.tx| < fifoLen && rxLen - txLen < fifoLen
      modifies this`hw, this`now, this`wireSel, this`txPos, this`txLen
      ensures Valid()
      ensures txLen == old(txLen) - 1 && txPos == if tx == null then old(txPos) else old(txPos) + 1
      ensures hw.drained == old(hw.drained)
      ensures |hw.tx| <= |old(hw.tx)| + 1
      ensures hw.written + Source() == old(hw.written + Source())
      ensures Measure() < old(Measure())
    {
      hide IsCountdown;
      hide Lossless;
      hide Push;
      hide Work;
      hide InFlight;
      ghost var source := Source();
      Tick();
      ghost var before := hw.written;
      PushKeeps(hw, slave, txw);
      hw := Push(hw, txw);
      if tx != null {
        txPos := txPos + 1;
      }
      txLen := txLen - 1;
      assert source == [txw] + Source();
      Regroup(before, [txw], Source());
    }

    /** The loop of `dw_writer`. */
    method SendMany(count: nat)
      requires Valid() && count <= txLen && |hw.tx| + count <= fifoLen && rxLen - txLen + count <= fifoLen
      modifies this`hw, this`now, this`wireSel, this`txPos, this`txLen
      ensures Valid()
      ensures hw.drained == old(hw.drained)
      ensures txLen == old(txLen) - count
      ensures hw.written + Source() == old(hw.written + Source())
      ensures if count == 0 then hw == old(hw) && now == old(now)
              else Measure() < old(Measure())
    {
      var max: nat := count;
      var txw: byte := 0;
      while max > 0
        invariant Valid()
        invariant max <= txLen && |hw.tx| + max <= fifoLen && rxLen - txLen + max <= fifoLen
        invariant hw.drained == old(hw.drained)
        invariant txLen == old(txLen) - (count - max) && max <= count
        invariant hw.written + Source() == old(hw.written + Source())
        invariant tx == null ==> txw == 0
        invariant if max == count then hw == old(hw) && now == old(now) else Measure() < old(Measure())
      {
        if tx != null {
          txw := tx[txPos];
        }
        SendOne(txw);
        max := max - 1;
      }
    }

    /** `dw_writer`: sends further bytes of the buffer, in order, as many as `dw_spi_tx_max` allows. */
    method Writer()
      requires Valid()
      modifies this`hw, this`now, this`wireSel, this`txPos, this`txLen
      ensures Valid()
      ensures hw.drained == old(hw.drained)
      ensures txLen <= old(txLen)
      ensures hw.written + Source() == old(hw.written + Source())
      ensures Measure() <= old(Measure())
      ensures Measure() == old(Measure()) ==>
                && hw == old(hw)
                && (ser != 0 ==> Idle(hw) || wait(now) < wait(old(now)))
                && (txLen == 0 || |hw.tx| == fifoLen || rxLen - txLen == fifoLen)
    {
      hide IsCountdown;
      hide Lossless;
      var max := TxMax();
      SendMany(max);
    }

    method ReceiveOne() returns (ghost got: byte)
      requires Valid() && rxLen > 0 && hw.rx != []
      modifies this`hw, this`now, this`wireSel, this`rxPos, this`rxLen, rx
      ensures Valid()
      ensures rxLen == old(rxLen) - 1 && rxPos == if rx == null then old(rxPos) else old(rxPos) + 1
      ensures hw.written == old(hw.written) && hw.drained == old(hw.drained) + [got]
      ensures Source() == old(Source())
      ensures |hw.rx| >= |old(hw.rx)| - 1
      ensures rx != null ==> rx[..] == Stored(old(rx[..]), old(rxPos), [got])
      ensures Measure() < old(Measure())
    {
      hide IsCountdown;
      hide Lossless;
      hide Pop;
      hide Stored;
      Tick();
      PopKeeps(hw, slave);
      var (rxw, after) := Pop(hw);
      hw := after;
      Keep(rxw);
      got := rxw;
    }

    /** Stores one reply.  With one buffer for both directions it lands on a byte already sent. */
    method Keep(rxw: byte)
      requires rxLen > txLen && (rx != null ==> rxPos + rxLen <= rx.Length)
      requires tx != null ==> txPos + txLen <= tx.Length
      requires tx != null && tx == rx ==> rxPos + rxLen == txPos + txLen
      modifies this`rxPos, this`rxLen, rx
      ensures rxLen == old(rxLen) - 1 && rxPos == if rx == null then old(rxPos) else old(rxPos) + 1
      ensures rx != null ==> rx[..] == Stored(old(rx[..]), old(rxPos), [rxw])
      ensures Source() == old(Source())
    {
      if rx != null {
        rx[rxPos] := rxw;
        rxPos := rxPos + 1;
      }
      rxLen := rxLen - 1;
    }

    /** The loop of `dw_reader`. */
    method ReceiveMany(count: nat) returns (ghost got: seq<byte>)
      requires Valid() && count <= rxLen && count <= |hw.rx|
      modifies this`hw, this`now, this`wireSel, this`rxPos, this`rxLen, rx
      ensures Valid()
      ensures |got| == count && rxLen == old(rxLen) - count
      ensures rxPos == if rx == null then old(rxPos) else old(rxPos) + count
      ensures hw.written == old(hw.written) && hw.drained == old(hw.drained) + got
      ensures Source() == old(Source())
      ensures rx != null ==> rx[..] == Stored(old(rx[..]), old(rxPos), got)
      ensures if count == 0 then hw == old(hw) && now == old(now)
              else Measure() < old(Measure())
    {
      hide IsCountdown;
      hide Lossless;
      hide Work;
      hide InFlight;
      var max: nat := count;
      got := [];
      while max > 0
        invariant Valid()
        invariant max <= rxLen && max <= |hw.rx|
        invariant max <= count && |got| == count - max && rxLen == old(rxLen) - |got|
        invariant rxPos == if rx == null then old(rxPos) else old(rxPos) + |got|
        invariant hw.written == old(hw.written) && hw.drained == old(hw.drained) + got
        invariant Source() == old(Source())
        invariant rx != null ==> rx[..] == Stored(old(rx[..]), old(rxPos), got)
        invariant if max == count then hw == old(hw) && now == old(now) else Measure() < old(Measure())
      {
        ghost var b := ReceiveOne();
        if rx != null {
          StoredMore(old(rx[..]), old(rxPos), got, [b]);
        }
        got := got + [b];
        max := max - 1;
      }
    }

    /** `dw_reader`: stores further replies, in order; it never reads an empty FIFO. */
    method Reader() returns (ghost got: seq<byte>)
      requires Valid()
      modifies this`hw, this`now, this`wireSel, this`rxPos, this`rxLen, rx
      ensures Valid()
      ensures |got| <= old(rxLen) && rxLen == old(rxLen) - |got|
      ensures rxPos == if rx == null then old(rxPos) else old(rxPos) + |got|
      ensures hw.written == old(hw.written) && hw.drained == old(hw.drained) + got
      ensures rx != null ==> rx[..] == Stored(old(rx[..]), old(rxPos), got)
      ensures Source() == old(Source())
      ensures Measure() <= old(Measure())
      ensures Measure() == old(Measure()) ==>
                && hw == old(hw)
                && (ser != 0 ==> Idle(hw) || wait(now) < wait(old(now)))
                && (rxLen == 0 || hw.rx == [])
    {
      hide IsCountdown;
      hide Lossless;
      hide Stored;
      var max := RxMax();
      got := ReceiveMany(max);
    }

    /** One round of the polling loop. */
    method Round() returns (ghost got: seq<byte>)
      requires Valid()
      modifies this`hw, this`now, this`wireSel, this`txPos, this`txLen, this`rxPos, this`rxLen, rx
      ensures Valid()
      ensures txLen <= old(txLen) && |got| <= old(rxLen) && rxLen == old(rxLen) - |got|
      ensures rxPos == if rx == null then old(rxPos) else old(rxPos) + |got|
      ensures hw.written + Source() == old(hw.written + Source())
      ensures hw.drained == old(hw.drained) + got
      ensures rx != null ==> rx[..] == Stored(old(rx[..]), old(rxPos), got)
      ensures Measure() <= old(Measure())
      ensures fifoLen > 0 && rxLen > 0 && ser != 0 ==>
                Measure() < old(Measure()) || wait(now) < wait(old(now))
    {
      hide IsCountdown;
      hide Lossless;
      hide Stored;
      Writer();
      got := Reader();
    }

    /**
     `dw_spi_poll_transfer`, for any hardware pace that does not stop for good: the loop ends, everything
     that was to be sent has been written, in order, and the replies are stored, in order.
     */
    method PollTransfer() returns (ghost got: seq<byte>)
      requires Valid() && txLen == rxLen
      requires rxLen > 0 ==> fifoLen >= 1 && ser != 0
      modifies this`hw, this`now, this`wireSel, this`txPos, this`txLen, this`rxPos, this`rxLen, rx
      ensures Valid() && txLen == 0 && rxLen == 0 && InFlight(hw) == 0
      ensures hw.written == old(hw.written + Source())
      ensures |got| == old(rxLen) && hw.drained == old(hw.drained) + got
      ensures rx != null ==> rx[..] == Stored(old(rx[..]), old(rxPos), got)
    {
      hide IsCountdown;
      hide Lossless;
      got := Round();
      while rxLen > 0
        invariant Valid()
        invariant |got| <= old(rxLen) && rxLen == old(rxLen) - |got|
        invariant rxPos == if rx == null then old(rxPos) else old(rxPos) + |got|
        invariant hw.written + Source() == old(hw.written + Source())
        invariant hw.drained == old(hw.drained) + got
        invariant rx != null ==> rx[..] == Stored(old(rx[..]), old(rxPos), got)
        decreases Measure(), wait(now)
      {
        got := RoundAfter(got, old(hw.drained), if rx == null then [] else old(rx[..]), old(rxPos));
      }
    }

    /** A further round, `got` having been read since the buffer was `stored`. */
    method RoundAfter(ghost sofar: seq<byte>, ghost drained: seq<byte>, ghost stored: seq<byte>, ghost from: nat)
      returns (ghost got: seq<byte>)
      requires Valid() && hw.drained == drained + sofar
      requires rxPos == if rx == null then from else from + |sofar|
      requires rx != null ==> from + |sofar| <= |stored| && rx[..] == Stored(stored, from, sofar)
      modifies this`hw, this`now, this`wireSel, this`txPos, this`txLen, this`rxPos, this`rxLen, rx
      ensures Valid()
      ensures |sofar| <= |got| <= |sofar| + old(rxLen) && rxLen == old(rxLen) + |sofar| - |got|
      ensures rxPos == if rx == null then from else from + |got|
      ensures hw.written + Source() == old(hw.written + Source())
      ensures hw.drained == drained + got
      ensures rx != null ==> from + |got| <= |stored| && rx[..] == Stored(stored, from, got)
      ensures Measure() <= old(Measure())
      ensures fifoLen > 0 && rxLen > 0 && ser != 0 ==> Measure() < old(Measure()) || wait(now) < wait(old(now))
    {
      ghost var more := Round();
      Regroup(drained, sofar, more);
      if rx != null {
        StoredMore(stored, from, sofar, more);
      }
      got := sofar + more;
    }

    /** A write of the slave enable register, with nothing on its way. */
    method SelectSlave(value: nat)
      requires Valid() && InFlight(hw) == 0
      modifies this`hw, this`now, this`wireSel, this`selected, this`ser
      ensures Valid() && ser == value && hw == old(hw) && wireSel == old(wireSel) && selected == |hw.wire|
    {
      Tick();
      ser, selected := value, |hw.wire|;
    }

    /** The transfer between the two writes of the slave enable register. */
    method TransferSelected(chipSelect: nat) returns (ghost got: seq<byte>)
      requires Valid() && InFlight(hw) == 0 && (rxLen > 0 ==> fifoLen >= 1)
      modifies this`hw, this`now, this`wireSel, this`selected, this`ser
      modifies this`txPos, this`txLen, this`rxPos, this`rxLen, rx
      ensures Valid() && txLen == 0 && rxLen == 0 && InFlight(hw) == 0 && ser == 0
      ensures hw.written == old(hw.written + Source())
      ensures |got| == old(rxLen) && hw.drained == old(hw.drained) + got
      ensures rx != null ==> rx[..] == Stored(old(rx[..]), old(rxPos), got)
      ensures |wireSel| == |hw.wire|
      ensures forall k :: |old(hw.wire)| <= k < |hw.wire| ==> wireSel[k] == Power2(chipSelect)
    {
      hide IsCountdown;
      hide Lossless;
      hide InFlight;
      hide Power2;
      hide Work;
      hide Stored;
      SelectSlave(Power2(chipSelect));
      got := PollTransfer();
      SelectSlave(0);
    }

    /**
     `rp1spi_transfer`: points the controller at the buffers, selects the slave, transfers, deselects.  The
     bytes go out in order, each with this slave enabled and no other, and the receive buffer ends as the slave's
     replies in order, even when both buffers are one.
     */
    method Rp1SpiTransfer(chipSelect: nat, txbuf: array?<byte>, rxbuf: array?<byte>, len: nat)
      returns (ghost got: seq<byte>)
      requires Valid() && rxLen == 0
      requires len > 0 ==> fifoLen >= 1
      requires txbuf != null ==> len <= txbuf.Length
      requires rxbuf != null ==> len <= rxbuf.Length
      modifies this, rxbuf
      ensures Valid() && rxLen == 0 && ser == 0
      ensures hw.wire == old(hw.wire) + (if txbuf == null then seq(len, _ => 0) else old(txbuf[..len]))
      ensures |wireSel| == |hw.wire|
      ensures forall k, i: nat :: |old(hw.wire)| <= k < |hw.wire| ==> (HasBit(wireSel[k], i) <==> i == chipSelect)
      ensures |got| == len && forall i :: 0 <= i < len ==> got[i] == slave(|old(hw.wire)| + i)
      ensures rxbuf != null ==> rxbuf[..] == got + old(rxbuf[..])[len..]
    {
      hide IsCountdown;
      hide Lossless;
      hide InFlight;
      hide Power2;
      hide Work;
      hide Stored;
      hide HasBit;
      assert InFlight(hw) == 0;
      tx, txPos, txLen := txbuf, 0, len;
      rx, rxPos, rxLen := rxbuf, 0, len;
      ghost var sent := Source();
      got := TransferSelected(chipSelect);
      forall i: nat ensures HasBit(Power2(chipSelect), i) <==> i == chipSelect {
        OnlyBit(chipSelect, i);
      }
      Exchanged(old(hw), hw, slave, sent, got);
      if rxbuf != null {
        StoredFromStart(old(rxbuf[..]), got);
      }
    }
  }

  /** `1 << n` */
  function Power2(n: nat): (r: nat)
    ensures r > 0
  {
    if n == 0 then 1 else 2 * Power2(n - 1)
  }

  /** `1 << n` has bit `n` set and no other. */
  lemma {:induction false} OnlyBit(n: nat, i: nat)
    ensures HasBit(Power2(n), i) <==> i == n
    decreases n
  {
    if n == 0 {
      if i > 0 {
        NoBits(i - 1);
      }
    } else if i > 0 {
      OnlyBit(n - 1, i - 1);
    }
  }
}
