/**
 The methods of RP2350_SPIComms on its own fields and buffers.  Each handler, and the task, is an uninterrupted run of
 steps of the system in SpiSlave.
 */
module SpiComms {
  import opened Bytes
  import opened SpiSlave

  class SpiComms {
    const rx0: array<byte>           // buffer[0].rxBuffer
    const rx1: array<byte>           // buffer[1].rxBuffer
    const rxData: array<byte>
    const txData: array<byte>
    const txAligned: array<byte>     // the shadow copy that the TX channel streams
    var chanA: Channel
    var chanB: Channel
    var active: nat                  // which DMA channel is running
    var rxDmaMemoryIdx: nat
    var rxBufferIdx: nat
    var newWriteData: bool
    var copyRxBuffer: bool
    var dataOk: bool                 // argument of the last dataCallback
    var txChan: Channel
    var smEnabled: bool              // the PIO state machine
    var smAtWait: bool               // it is at wait_cs
    ghost var initial: seq<byte>
    ghost var cur: seq<byte>
    ghost var packets: seq<seq<byte>>
    ghost var stray: nat

    ghost function Abs(): (r: State)
      reads this, rx0, rx1, rxData
    {
      State([rx0[..], rx1[..]], [chanA, chanB], active, rxDmaMemoryIdx, rxBufferIdx, newWriteData, copyRxBuffer,
            dataOk, DmaOut, CsOut, Polling, rxData[..], initial, cur, packets, stray)
    }

    ghost predicate Valid()
      reads this, rx0, rx1, rxData
    {
      && rx0 != rx1 && rx0 != rxData && rx1 != rxData && Abs().WellFormed()
      && txAligned.Length == SIZE == txData.Length
      && txAligned != rx0 && txAligned != rx1 && txAligned != rxData && txAligned != txData
      && txData != rx0 && txData != rx1
    }

    constructor (rxData: array<byte>, txData: array<byte>)
      requires rxData.Length == SIZE == txData.Length
      ensures Valid() && fresh(rx0) && fresh(rx1) && fresh(txAligned)
      ensures this.rxData == rxData && this.txData == txData && rxData[..] == old(rxData[..])
      ensures active == 0 && rxDmaMemoryIdx == 0 && rxBufferIdx == 0 && !newWriteData && !copyRxBuffer && !smEnabled
      ensures initial == rxData[..] && cur == [] && packets == [] && stray == 0
    {
      this.rxData, this.txData := rxData, txData;
      rx0 := new byte[SIZE](_ => 0xA5);
      rx1 := new byte[SIZE](_ => 0xA5);
      txAligned := new byte[SIZE](_ => 0);
      chanA, chanB, txChan, active := Channel(0, 0, false), Channel(0, 0, false), Channel(0, 0, false), 0;
      rxDmaMemoryIdx, rxBufferIdx, newWriteData, copyRxBuffer, dataOk := 0, 0, false, false, false;
      smEnabled, smAtWait := false, false;
      initial, cur, packets, stray := rxData[..], [], [], 0;
    }

    /** `initDMA`: both RX channels point at their buffers with a full count, the TX channel at the shadow copy. */
    method InitDma()
      requires Valid()
      modifies this`chanA, this`chanB, this`txChan
      ensures Valid()
      ensures Abs() == old(Abs()).(chan := [Channel(0, SIZE, false), Channel(0, SIZE, false)])
      ensures txChan == Channel(0, SIZE, false)
    {
      chanA, chanB, txChan := Channel(0, SIZE, false), Channel(0, SIZE, false), Channel(0, SIZE, false);
    }

    /** The shadow copy is made and the TX channel streams it from the start; `txChan.writeAddr` is its position. */
    method ArmTx()
      requires Valid()
      modifies this`txChan, txAligned
      ensures Valid() && txAligned[..] == txData[..] && txChan == Channel(0, SIZE, false)
    {
      for i := 0 to SIZE
        invariant forall k :: 0 <= k < i ==> txAligned[k] == txData[k]
      {
        txAligned[i] := txData[i];
      }
      txChan := Channel(0, SIZE, false);
    }

    /**
     Chip select is polled until it is high or the deadline is reached; `high(i)` is its level at poll `i`, and the
     clock is asked once more after the loop.
     */
    method WaitForHigh(high: nat -> bool, deadline: nat) returns (polls: nat, warned: bool)
      ensures polls <= deadline && forall k: nat :: k < polls ==> !high(k)
      ensures polls < deadline ==> high(polls)
      ensures !warned ==> high(polls)
      ensures warned <==> deadline <= polls + 1
    {
      polls := 0;
      while !high(polls) && polls < deadline
        invariant polls <= deadline && forall k: nat :: k < polls ==> !high(k)
        decreases deadline - polls
      {
        polls := polls + 1;
      }
      warned := polls + 1 >= deadline;
    }

    /**
     `start`, after `initDMA`: clears both buffers, arms the transmit side, waits for chip select to be high (only
     warning if it never is), then starts channel A and the state machine.
     */
    method Start(high: nat -> bool, deadline: nat) returns (warned: bool)
      requires Valid() && chanA == Channel(0, SIZE, false) && chanB == chanA
      requires rxDmaMemoryIdx == 0 && rxBufferIdx == 0 && !newWriteData && !copyRxBuffer
      requires initial == rxData[..] && cur == [] && packets == [] && stray == 0
      modifies this`active, this`txChan, this`smEnabled, rx0, rx1, txAligned
      ensures Valid() && Started(Abs()) && smEnabled
      ensures txAligned[..] == txData[..] && txChan == Channel(0, SIZE, false)
      ensures !warned ==> exists i: nat :: i < deadline && high(i)
    {
      ClearRx();
      ArmTx();
      var polls;
      polls, warned := WaitForHigh(high, deadline);
      active, smEnabled := 0, true;
    }

    method ClearRx()
      requires Valid()
      modifies rx0, rx1
      ensures Valid() && Abs() == old(Abs()).(buffer := [seq(SIZE, _ => 0), seq(SIZE, _ => 0)])
    {
      for i := 0 to SIZE
        invariant forall k :: 0 <= k < i ==> rx0[k] == 0 && rx1[k] == 0
        invariant rxData[..] == old(rxData[..])
      {
        rx0[i], rx1[i] := 0, 0;
      }
      assert rx0[..] == seq(SIZE, _ => 0) && rx1[..] == seq(SIZE, _ => 0);
    }

    /** `head` was reported as good if it is one of the two headers, and taken note of if it is that of a write. */
    ghost predicate Reported(head: seq<byte>, idx: nat, newWrite0: bool, rxBufferIdx0: nat)
      reads this
    {
      && dataOk == (head == [0x74, 0x69, 0x72, 0x77] || head == [0x64, 0x61, 0x65, 0x72])
      && newWriteData == (newWrite0 || head == [0x74, 0x69, 0x72, 0x77])
      && rxBufferIdx == if head == [0x74, 0x69, 0x72, 0x77] then idx else rxBufferIdx0
    }

    /** `checkHeader` */
    method CheckHeader()
      requires Valid()
      modifies this`newWriteData, this`rxBufferIdx, this`dataOk
      ensures Valid() && Abs() == SpiSlave.CheckHeader(old(Abs()))
      ensures Reported(if rxDmaMemoryIdx == 0 then rx0[..4] else rx1[..4], rxDmaMemoryIdx,
                       old(newWriteData), old(rxBufferIdx))
    {
      var buf := if rxDmaMemoryIdx == 0 then rx0 else rx1;
      HeaderBytes(buf[..]);
      assert buf[..][..4] == buf[..4];
      assert buf[..] == Abs().buffer[rxDmaMemoryIdx];
      var hdr := Header(buf[..]);
      if hdr == PRU_READ || hdr == PRU_WRITE {
        dataOk := true;
        if hdr == PRU_WRITE {
          newWriteData := true;
          rxBufferIdx := rxDmaMemoryIdx;
        }
      } else {
        dataOk := false;
      }
    }

    /** `handleDmaRxInterrupt` */
    method HandleDmaRxInterrupt()
      requires Valid()
      modifies this`chanA, this`chanB, this`rxDmaMemoryIdx, this`newWriteData, this`rxBufferIdx, this`dataOk
      ensures Valid() && Abs() == ServeDma(old(Abs()))
      ensures old(chanA.irq) ==>
                && chanA == Channel(0, 64, false) && chanB == old(chanB) && rxDmaMemoryIdx == 0
                && Reported(rx0[..4], 0, old(newWriteData), old(rxBufferIdx))
      ensures !old(chanA.irq) && old(chanB.irq) ==>
                && chanB == Channel(0, 64, false) && chanA == old(chanA) && rxDmaMemoryIdx == 1
                && Reported(rx1[..4], 1, old(newWriteData), old(rxBufferIdx))
    {
      ServeDmaInOne(Abs());
      hide ServeDma;
      hide SpiSlave.CheckHeader;
      if chanA.irq {
        chanA := Channel(0, SIZE, false);
        rxDmaMemoryIdx := 0;
        assert Abs() == old(Abs()).(chan := old(Abs()).chan[0 := Channel(0, SIZE, false)], memoryIdx := 0);
        CheckHeader();
      } else if chanB.irq {
        chanB := Channel(0, SIZE, false);
        rxDmaMemoryIdx := 1;
        assert Abs() == old(Abs()).(chan := old(Abs()).chan[1 := Channel(0, SIZE, false)], memoryIdx := 1);
        CheckHeader();
      }
    }

    /**
     `handleNssInterrupt`; `csHigh` is the level read from the pin.  The end of a transaction puts the state machine
     back to its start, streams the current transmit data next time, and announces a packet newly received.
     */
    method HandleNssInterrupt(csHigh: bool)
      requires Valid()
      modifies this`copyRxBuffer, this`newWriteData, this`txChan, this`smAtWait, txAligned
      ensures Valid() && Abs() == ServeCs(old(Abs()), csHigh)
      ensures csHigh ==> smAtWait && txAligned[..] == txData[..] && txChan == Channel(0, SIZE, false)
      ensures newWriteData == (old(newWriteData) && !csHigh)
      ensures copyRxBuffer == (old(copyRxBuffer) || (csHigh && old(newWriteData)))
      ensures !csHigh ==> smAtWait == old(smAtWait) && txAligned[..] == old(txAligned[..]) && txChan == old(txChan)
    {
      if csHigh {
        smAtWait := true;
        ArmTx();
        if newWriteData {
          copyRxBuffer := true;
          newWriteData := false;
        }
      }
    }

    /** `tasks` without interference: all the steps from the test of the flag back to it. */
    method Tasks()
      requires Valid()
      modifies this`copyRxBuffer, rxData
      ensures Valid()
      ensures Abs() == TaskSteps(old(Abs()), StepsToEnd(old(Abs())))
      ensures old(copyRxBuffer) ==> rxData[..] == old(Abs()).buffer[rxBufferIdx]
      ensures !old(copyRxBuffer) ==> rxData[..] == old(rxData[..])
      ensures !copyRxBuffer
    {
      TaskAlone(old(Abs()));
      if !copyRxBuffer {
        return;
      }
      CopyWords(if rxBufferIdx == 0 then rx0 else rx1);
      copyRxBuffer := false;
    }

    /** The copy loop, a word at a time. */
    method CopyWords(src: array<byte>)
      requires src.Length == SIZE && rxData.Length == SIZE && src != rxData
      modifies rxData
      ensures rxData[..] == src[..]
    {
      for w := 0 to SIZE / 4
        invariant forall k :: 0 <= k < 4 * w ==> rxData[k] == src[k]
      {
        rxData[4 * w], rxData[4 * w + 1], rxData[4 * w + 2], rxData[4 * w + 3]
          := src[4 * w], src[4 * w + 1], src[4 * w + 2], src[4 * w + 3];
      }
    }
  }
}
