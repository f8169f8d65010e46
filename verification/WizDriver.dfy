/**
 What the driver's ring accesses (wiz_send_data, wiz_recv_data, the RECV command) do to the chip, and that each
 touches one ring only.
 */
module WizDriver {
  import opened Bytes
  import opened Ring
  import opened WizChip

  /** Every socket but `sn` keeps its registers and its rings. */
  ghost predicate OthersKept(c: Chip, d: Chip, sn: nat)
    requires c.Valid() && d.Valid()
  {
    && |d.socks| == |c.socks| && d.txBuf == c.txBuf && d.rxBuf == c.rxBuf && d.bufLen == c.bufLen
    && forall i :: 0 <= i < |c.socks| && i != sn ==>
         d.socks[i] == c.socks[i] && Pending(d, i) == Pending(c, i) && Unsent(d, i) == Unsent(c, i)
  }

  lemma LagAfterTake(rd: nat, done: nat, len: nat, rsr: nat)
    requires rd < POINTERS && done < POINTERS && rsr <= 0x8000 && Distance(done, rd) + len <= rsr
    ensures Distance(done, Advance(rd, len)) == Distance(done, rd) + len
  {
  }

  lemma {:induction false} Pow2Mono(j: nat, k: nat)
    requires j <= k
    ensures Pow2(j) <= Pow2(k)
  {
    if j < k {
      Pow2Mono(j, k - 1);
    }
  }

  lemma RingBelow32K(s: Sock)
    requires s.Valid()
    ensures s.RxMax() <= 0x8000 && s.TxMax() <= 0x8000
  {
    Pow2Mono(s.rxBits, 15);
    Pow2Mono(s.txBits, 15);
    Pow2Of16();
    assert Pow2(16) == 2 * Pow2(15);
  }

  /** The register update at the end of wiz_recv_data. */
  function Taken(c: Chip, sn: nat, len: nat): (r: Chip)
    requires sn < |c.socks|
  {
    var k := c.socks[sn];
    c.(socks := c.socks[sn := k.(rxRd := Advance(k.rxRd, len))])
  }

  lemma TakenRegisters(c: Chip, sn: nat, len: nat)
    requires c.Valid() && sn < |c.socks| && len <= |Pending(c, sn)|
    ensures var d := Taken(c, sn, len);
            && d.Valid() && d.socks[sn].Lag() == c.socks[sn].Lag() + len
            && forall i :: 0 <= i <= |c.socks| ==> d.TxBase(i) == c.TxBase(i) && d.RxBase(i) == c.RxBase(i)
  {
    var k := c.socks[sn];
    RingBelow32K(k);
    LagAfterTake(k.rxRd, k.rxDone, len, k.rsr);
    BasesStay(c, sn, Taken(c, sn, len).socks[sn], c.mem);
  }

  /** Reading `len` bytes takes them off the front of what is pending. */
  lemma TakenPending(c: Chip, sn: nat, len: nat)
    requires c.Valid() && sn < |c.socks| && len <= |Pending(c, sn)|
    ensures var d := Taken(c, sn, len);
            && d.Valid() && Pending(d, sn) == Pending(c, sn)[len..] && Unsent(d, sn) == Unsent(c, sn)
            && OthersKept(c, d, sn)
    ensures c.RxBase(sn) + c.socks[sn].RxMax() <= |c.mem| && len <= c.socks[sn].RxMax()
    ensures Read(c.mem, c.RxBase(sn), c.socks[sn].RxMax(), Masked(c.socks[sn].rxRd, c.socks[sn].rxBits), len)
            == Pending(c, sn)[..len]
  {
    var k := c.socks[sn];
    TakenRegisters(c, sn, len);
    RingsInMemory(c, sn);
    AdvanceSkips(c.mem, c.RxBase(sn), k.rxBits, k.rxRd, len, k.rsr - k.Lag());
  }

  /** The RECV command: the chip frees what was read. */
  function Committed(c: Chip, sn: nat): (r: Chip)
    requires c.Valid() && sn < |c.socks|
  {
    var k := c.socks[sn];
    c.(socks := c.socks[sn := k.(rxDone := k.rxRd, rsr := k.rsr - k.Lag())])
  }

  lemma CommittedPending(c: Chip, sn: nat)
    requires c.Valid() && sn < |c.socks|
    ensures var d := Committed(c, sn);
            && d.Valid() && d.socks[sn].Lag() == 0 && d.socks[sn].rsr == |Pending(d, sn)|
            && Pending(d, sn) == Pending(c, sn) && Unsent(d, sn) == Unsent(c, sn)
            && OthersKept(c, d, sn)
  {
    var d := Committed(c, sn);
    assert d.socks[sn].Lag() == 0;
    BasesStay(c, sn, d.socks[sn], c.mem);
  }

  /** From `c` to `d` only the receive side of `sn` was worked on by the driver. */
  ghost predicate ReceivesOnly(c: Chip, d: Chip, sn: nat)
    requires c.Valid() && sn < |c.socks|
  {
    && d.Valid() && SameLayout(c, d)
    && (forall i :: 0 <= i < |c.socks| && i != sn ==> LaterAt(c, d, i))
    && SendSideLater(c, d, sn)
  }

  predicate SameLayout(c: Chip, d: Chip) {
    d.txBuf == c.txBuf && d.rxBuf == c.rxBuf && d.bufLen == c.bufLen && |d.socks| == |c.socks|
  }

  ghost predicate SendSideLater(c: Chip, d: Chip, sn: nat)
    requires c.Valid() && d.Valid() && sn < |c.socks| == |d.socks|
  {
    var k, l := c.socks[sn], d.socks[sn];
    && l.protocol == k.protocol && (l.open ==> k.open) && l.txBits == k.txBits && l.rxBits == k.rxBits
    && l.txWr == k.txWr
    && k.arrived <= l.arrived && l.UnsentCount() <= k.UnsentCount()
    && l.sent + Unsent(d, sn) == k.sent + Unsent(c, sn)
  }

  lemma LaterReceives(c: Chip, d: Chip, sn: nat)
    requires c.Valid() && sn < |c.socks| && Later(c, d)
    ensures ReceivesOnly(c, d, sn)
  {
    assert LaterAt(c, d, sn);
  }

  lemma OthersReceive(c: Chip, d: Chip, sn: nat)
    requires c.Valid() && d.Valid() && sn < |c.socks| == |d.socks| && OthersKept(c, d, sn) && SendSideLater(c, d, sn)
    ensures ReceivesOnly(c, d, sn)
  {
    forall i | 0 <= i < |c.socks| && i != sn ensures LaterAt(c, d, i) {
      LaterSame(c, d, i);
    }
  }

  lemma ReceivesTrans(c: Chip, d: Chip, e: Chip, sn: nat)
    requires c.Valid() && d.Valid() && sn < |c.socks|
    requires ReceivesOnly(c, d, sn) && ReceivesOnly(d, e, sn)
    ensures ReceivesOnly(c, e, sn)
  {
    forall i | 0 <= i < |c.socks| && i != sn ensures LaterAt(c, e, i) {
      LaterAtTrans(c, d, e, i);
    }
  }

  lemma ReceivesLater(c: Chip, d: Chip, e: Chip, sn: nat)
    requires c.Valid() && d.Valid() && sn < |c.socks|
    requires ReceivesOnly(c, d, sn) && Later(d, e)
    ensures ReceivesOnly(c, e, sn)
  {
    LaterReceives(d, e, sn);
    ReceivesTrans(c, d, e, sn);
  }

  /** Taking and committing bytes is all it takes. */
  lemma TakenReceives(c: Chip, sn: nat, len: nat)
    requires c.Valid() && sn < |c.socks| && len <= |Pending(c, sn)|
    ensures ReceivesOnly(c, Taken(c, sn, len), sn)
  {
    TakenPending(c, sn, len);
    OthersReceive(c, Taken(c, sn, len), sn);
  }

  lemma CommittedReceives(c: Chip, sn: nat)
    requires c.Valid() && sn < |c.socks|
    ensures ReceivesOnly(c, Committed(c, sn), sn)
  {
    CommittedPending(c, sn);
    OthersReceive(c, Committed(c, sn), sn);
  }

  /** The byte at a pending position stays where it is while the chip goes on. */
  lemma PendingByte(c: Chip, d: Chip, sn: nat, j: nat)
    requires c.Valid() && sn < |c.socks| && Later(c, d) && j < |Pending(c, sn)|
    ensures var k := c.socks[sn]; var a := c.RxBase(sn) + Wrap(Masked(k.rxRd, k.rxBits), j, k.RxMax());
            a < |d.mem| && d.mem[a] == Pending(c, sn)[j]
  {
    LaterBases(c, d, sn);
    RingsInMemory(c, sn);
    assert LaterAt(c, d, sn);
    assert Pending(d, sn)[j] == Pending(c, sn)[j];
  }

  lemma PointerSum(wr: nat, rd: nat)
    requires wr < POINTERS && rd < POINTERS
    ensures Advance(rd, Distance(rd, wr)) == wr
  {
  }

  /** The driver's write pointer, masked, is behind the unsent bytes. */
  lemma WritePointer(k: Sock)
    requires k.Valid()
    ensures Masked(k.txWr, k.txBits) == Wrap(Masked(k.txRd, k.txBits), k.UnsentCount(), k.TxMax())
  {
    PointerSum(k.txWr, k.txRd);
    AdvancePointer(k.txRd, k.UnsentCount(), k.txBits);
  }

  // ----- Sending: bytes are staged behind the write pointer, which moves over all of them at the end -----

  predicate Fits(c: Chip, sn: nat, n: nat)
    requires c.Valid()
  {
    sn < |c.socks| && c.socks[sn].UnsentCount() + n <= c.socks[sn].TxMax()
  }

  /** The next `n` bytes behind the write pointer. */
  function Staged(c: Chip, sn: nat, n: nat): (s: seq<byte>)
    requires c.Valid() && Fits(c, sn, n)
    ensures |s| == n
  {
    RingsInMemory(c, sn);
    var k := c.socks[sn];
    Read(c.mem, c.TxBase(sn), k.TxMax(), Masked(k.txWr, k.txBits), n)
  }

  /** One more byte stored behind `n` staged ones. */
  function Stored(c: Chip, sn: nat, n: nat, b: byte): (r: Chip)
    requires c.Valid() && Fits(c, sn, n + 1)
  {
    RingsInMemory(c, sn);
    var k := c.socks[sn];
    c.(mem := Write(c.mem, c.TxBase(sn), k.TxMax(), Wrap(Masked(k.txWr, k.txBits), n, k.TxMax()), [b]))
  }

  lemma StoredStages(c: Chip, sn: nat, n: nat, b: byte)
    requires c.Valid() && Fits(c, sn, n + 1)
    ensures var d := Stored(c, sn, n, b); d.Valid() && Staged(d, sn, n + 1) == Staged(c, sn, n) + [b]
  {
    var k := c.socks[sn];
    RingsInMemory(c, sn);
    WriteAppends(c.mem, c.TxBase(sn), k.TxMax(), Masked(k.txWr, k.txBits), n, [b]);
  }

  lemma StoredKeepsUnsent(c: Chip, sn: nat, n: nat, b: byte)
    requires c.Valid() && Fits(c, sn, n + 1)
    ensures var d := Stored(c, sn, n, b); d.Valid() && Unsent(d, sn) == Unsent(c, sn)
  {
    var k, d := c.socks[sn], Stored(c, sn, n, b);
    var base, max, m, u := c.TxBase(sn), k.TxMax(), Masked(k.txRd, k.txBits), k.UnsentCount();
    RingsInMemory(c, sn);
    hide Chip.Valid;
    hide Masked;
    hide Pow2;
    WritePointer(k);
    assert Wrap(Masked(k.txWr, k.txBits), n, max) == Wrap(m, u + n, max);
    WriteAppends(c.mem, base, max, m, u + n, [b]);
    assert Read(d.mem, base, max, m, u) == Read(d.mem, base, max, m, u + n + 1)[..u];
    assert Read(c.mem, base, max, m, u) == Read(c.mem, base, max, m, u + n)[..u];
  }

  /** Only the ring stored into changes, and there only one byte. */
  lemma StoredChanges(c: Chip, sn: nat, n: nat, b: byte)
    requires c.Valid() && Fits(c, sn, n + 1)
    ensures var d := Stored(c, sn, n, b);
            && |d.mem| == |c.mem|
            && forall a :: 0 <= a < |c.mem| && !(c.TxBase(sn) <= a < c.TxBase(sn) + c.socks[sn].TxMax()) ==>
                 d.mem[a] == c.mem[a]
  {
    RingsInMemory(c, sn);
  }

  /** So what any other ring holds, in either direction, stays. */
  lemma StoredElsewhere(c: Chip, sn: nat, n: nat, b: byte, i: nat)
    requires c.Valid() && Fits(c, sn, n + 1) && i < |c.socks|
    ensures var d := Stored(c, sn, n, b); d.Valid() && Pending(d, i) == Pending(c, i)
    ensures var d := Stored(c, sn, n, b); d.Valid() && (i != sn ==> Unsent(d, i) == Unsent(c, i))
  {
    StoredChanges(c, sn, n, b);
    RingsInMemory(c, sn);
    RingsInMemory(c, i);
    RingsApart(c, sn, i);
  }

  // ----- The transmit memory: the chip only reads it, and the driver writes one ring at a time ---------------

  /** No byte of the transmit memory changed. */
  predicate TxKept(c: Chip, d: Chip)
    requires c.Valid()
  {
    && d.txBuf == c.txBuf && d.bufLen == c.bufLen && |d.mem| == |c.mem|
    && forall a :: c.txBuf <= a < c.txBuf + c.bufLen ==> d.mem[a] == c.mem[a]
  }

  /** No byte of it outside the ring of `sn`, whether queued or free. */
  predicate OtherTxKept(c: Chip, d: Chip, sn: nat)
    requires c.Valid() && sn < |c.socks|
  {
    && |d.mem| == |c.mem|
    && forall a :: c.txBuf <= a < c.txBuf + c.bufLen && !(c.TxBase(sn) <= a < c.TxBase(sn) + c.socks[sn].TxMax()) ==>
         d.mem[a] == c.mem[a]
  }

  lemma HwStepKeepsTx(c: Chip, e: HwEvent)
    requires c.Valid()
    ensures TxKept(c, HwStep(c, e))
  {
    if e.Rx? && Accepts(c, e.sn, e.frame) {
      RingsInMemory(c, e.sn);
    }
  }

  lemma {:induction false} EvolveKeepsTx(c: Chip, es: seq<HwEvent>)
    requires c.Valid()
    ensures TxKept(c, Evolve(c, es))
    decreases |es|
  {
    if es != [] {
      HwStepKeepsTx(c, es[0]);
      HwStepLater(c, es[0]);
      EvolveKeepsTx(HwStep(c, es[0]), es[1..]);
    }
  }

  lemma TxKeptTrans(b: Chip, c: Chip, d: Chip)
    requires b.Valid() && c.Valid() && TxKept(b, c) && TxKept(c, d)
    ensures TxKept(b, d)
  {
  }

  lemma KeptThenOtherTx(b: Chip, c: Chip, d: Chip, sn: nat)
    requires b.Valid() && c.Valid() && sn < |b.socks| && Later(b, c) && TxKept(b, c) && OtherTxKept(c, d, sn)
    ensures OtherTxKept(b, d, sn)
  {
    LaterBases(b, c, sn);
    assert LaterAt(b, c, sn);
  }

  lemma OtherTxThenKept(b: Chip, c: Chip, d: Chip, sn: nat)
    requires b.Valid() && c.Valid() && sn < |b.socks| && Later(b, c) && OtherTxKept(b, c, sn) && TxKept(c, d)
    ensures OtherTxKept(b, d, sn)
  {
  }

  lemma OtherTxTrans(b: Chip, c: Chip, d: Chip, sn: nat)
    requires b.Valid() && c.Valid() && sn < |b.socks| && Later(b, c) && OtherTxKept(b, c, sn) && OtherTxKept(c, d, sn)
    ensures OtherTxKept(b, d, sn)
  {
    LaterBases(b, c, sn);
    assert LaterAt(b, c, sn);
  }

  /** The chip goes on, and one byte is stored in the ring. */
  lemma StoreKeepsOtherTx(b: Chip, c: Chip, d: Chip, sn: nat, a: nat, x: byte)
    requires b.Valid() && c.Valid() && sn < |b.socks| && Later(b, c) && OtherTxKept(b, c, sn) && TxKept(c, d)
    requires b.TxBase(sn) <= a < b.TxBase(sn) + b.socks[sn].TxMax() && a < |d.mem|
    ensures OtherTxKept(b, d.(mem := d.mem[a := x]), sn)
  {
  }

  lemma StoredLater(c: Chip, sn: nat, n: nat, b: byte)
    requires c.Valid() && Fits(c, sn, n + 1)
    ensures Later(c, Stored(c, sn, n, b))
  {
    var d := Stored(c, sn, n, b);
    StoredKeepsUnsent(c, sn, n, b);
    forall i | 0 <= i < |c.socks| ensures LaterAt(c, d, i) {
      StoredElsewhere(c, sn, n, b, i);
      LaterSame(c, d, i);
    }
  }

  lemma StepKeepsStaged(c: Chip, e: HwEvent, sn: nat, n: nat)
    requires c.Valid() && Fits(c, sn, n)
    ensures var d := HwStep(c, e); d.Valid() && Fits(d, sn, n) && Staged(d, sn, n) == Staged(c, sn, n)
  {
    var d := HwStep(c, e);
    HwStepLater(c, e);
    LaterBases(c, d, sn);
    assert LaterAt(c, d, sn);
    if e.Rx? && Accepts(c, e.sn, e.frame) {
      var k, l := c.socks[e.sn], c.socks[sn];
      RingsInMemory(c, e.sn);
      RingsInMemory(c, sn);
      RingsApart(c, sn, e.sn);
      WriteElsewhere(c.mem, c.RxBase(e.sn), k.RxMax(), Wrap(Masked(k.rxDone, k.rxBits), k.rsr, k.RxMax()),
                     Encode(k.protocol, e.frame),
                     c.TxBase(sn), l.TxMax(), Masked(l.txWr, l.txBits), n);
    }
  }

  /** The chip does not touch what is staged. */
  lemma {:induction false} EvolveKeepsStaged(c: Chip, es: seq<HwEvent>, sn: nat, n: nat)
    requires c.Valid() && Fits(c, sn, n)
    ensures var d := Evolve(c, es); Fits(d, sn, n) && Staged(d, sn, n) == Staged(c, sn, n)
    decreases |es|
  {
    if es != [] {
      StepKeepsStaged(c, es[0], sn, n);
      EvolveKeepsStaged(HwStep(c, es[0]), es[1..], sn, n);
    }
  }

  /** The write pointer moves over `n` staged bytes. */
  function Advanced(c: Chip, sn: nat, n: nat): (r: Chip)
    requires sn < |c.socks|
  {
    var k := c.socks[sn];
    c.(socks := c.socks[sn := k.(txWr := Advance(k.txWr, n))])
  }

  lemma CountAfterQueue(wr: nat, rd: nat, len: nat, max: nat)
    requires wr < POINTERS && rd < POINTERS && max <= 0x8000 && Distance(rd, wr) + len <= max
    ensures Distance(rd, Advance(wr, len)) == Distance(rd, wr) + len
  {
  }

  lemma AdvancedSock(k: Sock, n: nat)
    requires k.Valid() && k.UnsentCount() + n <= k.TxMax()
    ensures var l := k.(txWr := Advance(k.txWr, n)); l.Valid() && l.UnsentCount() == k.UnsentCount() + n
  {
    RingBelow32K(k);
    CountAfterQueue(k.txWr, k.txRd, n, k.TxMax());
  }

  /** This appends the staged bytes to the unsent ones. */
  lemma AdvancedQueues(c: Chip, sn: nat, n: nat)
    requires c.Valid() && Fits(c, sn, n)
    ensures var d := Advanced(c, sn, n);
            && d.Valid() && Unsent(d, sn) == Unsent(c, sn) + Staged(c, sn, n) && Pending(d, sn) == Pending(c, sn)
            && OthersKept(c, d, sn)
  {
    var k, d := c.socks[sn], Advanced(c, sn, n);
    AdvancedSock(k, n);
    BasesStay(c, sn, d.socks[sn], c.mem);
    RingsInMemory(c, sn);
    WritePointer(k);
    ReadSplit(c.mem, c.TxBase(sn), k.TxMax(), Masked(k.txRd, k.txBits), k.UnsentCount(), n);
  }

  /** From `c` to `d` the driver queued `data` for sending on `sn`, and did nothing else. */
  ghost predicate SendsOnly(c: Chip, d: Chip, sn: nat, data: seq<byte>)
    requires c.Valid() && sn < |c.socks|
  {
    && d.Valid() && |d.socks| == |c.socks|
    && (forall i :: 0 <= i < |c.socks| && i != sn ==> LaterAt(c, d, i))
    && QueuedAt(c, d, sn, data)
  }

  ghost predicate QueuedAt(c: Chip, d: Chip, sn: nat, data: seq<byte>)
    requires c.Valid() && d.Valid() && sn < |c.socks| == |d.socks|
  {
    && d.socks[sn].protocol == c.socks[sn].protocol
    && d.socks[sn].rxRd == c.socks[sn].rxRd && d.socks[sn].rxDone == c.socks[sn].rxDone
    && Brought(c.socks[sn], Pending(c, sn), d.socks[sn], Pending(d, sn))
    && d.socks[sn].sent + Unsent(d, sn) == c.socks[sn].sent + Unsent(c, sn) + data
  }

  lemma OthersLater(c: Chip, d: Chip, e: Chip, sn: nat, i: nat)
    requires c.Valid() && d.Valid() && e.Valid() && i < |c.socks| && i != sn
    requires Later(c, d) && OthersKept(d, e, sn)
    ensures LaterAt(c, e, i)
  {
    LaterSame(d, e, i);
    LaterAtTrans(c, d, e, i);
  }

  lemma AdvancedQueuedAt(c: Chip, d: Chip, sn: nat, n: nat)
    requires c.Valid() && d.Valid() && |c.socks| == |d.socks| && Fits(d, sn, n) && LaterAt(c, d, sn)
    ensures var e := Advanced(d, sn, n); e.Valid() && QueuedAt(c, e, sn, Staged(d, sn, n))
  {
    AdvancedQueues(d, sn, n);
    Regroup(d.socks[sn].sent, Unsent(d, sn), Staged(d, sn, n));
  }

  lemma AdvancedSends(c: Chip, d: Chip, sn: nat, n: nat)
    requires c.Valid() && Later(c, d) && Fits(d, sn, n)
    ensures SendsOnly(c, Advanced(d, sn, n), sn, Staged(d, sn, n))
  {
    var e := Advanced(d, sn, n);
    AdvancedQueues(d, sn, n);
    AdvancedQueuedAt(c, d, sn, n);
    forall i | 0 <= i < |c.socks| && i != sn ensures LaterAt(c, e, i) {
      OthersLater(c, d, e, sn, i);
    }
  }

  lemma LaterQueuedAt(b: Chip, c: Chip, d: Chip, sn: nat, data: seq<byte>)
    requires b.Valid() && c.Valid() && d.Valid() && sn < |b.socks| == |c.socks| == |d.socks|
    requires LaterAt(b, c, sn) && QueuedAt(c, d, sn, data)
    ensures QueuedAt(b, d, sn, data)
  {
    BroughtTrans(b.socks[sn], Pending(b, sn), c.socks[sn], Pending(c, sn), d.socks[sn], Pending(d, sn));
  }

  /** Going on and then sending is sending. */
  lemma SendsLater(b: Chip, c: Chip, d: Chip, sn: nat, data: seq<byte>)
    requires b.Valid() && c.Valid() && sn < |b.socks| && Later(b, c) && SendsOnly(c, d, sn, data)
    ensures SendsOnly(b, d, sn, data)
  {
    LaterQueuedAt(b, c, d, sn, data);
    forall i | 0 <= i < |b.socks| && i != sn ensures LaterAt(b, d, i) {
      LaterAtTrans(b, c, d, i);
    }
  }

  lemma QueuedLaterAt(c: Chip, d: Chip, e: Chip, sn: nat, data: seq<byte>)
    requires c.Valid() && d.Valid() && e.Valid() && sn < |c.socks| == |d.socks| == |e.socks|
    requires QueuedAt(c, d, sn, data) && LaterAt(d, e, sn)
    ensures QueuedAt(c, e, sn, data)
  {
    BroughtTrans(c.socks[sn], Pending(c, sn), d.socks[sn], Pending(d, sn), e.socks[sn], Pending(e, sn));
  }

  /** So is sending and then going on: what was queued is still queued, or has left. */
  lemma SendsThenLater(c: Chip, d: Chip, e: Chip, sn: nat, data: seq<byte>)
    requires c.Valid() && d.Valid() && sn < |c.socks| && SendsOnly(c, d, sn, data) && Later(d, e)
    ensures SendsOnly(c, e, sn, data)
  {
    QueuedLaterAt(c, d, e, sn, data);
    forall i | 0 <= i < |c.socks| && i != sn ensures LaterAt(c, e, i) {
      LaterAtTrans(c, d, e, i);
    }
  }
}
