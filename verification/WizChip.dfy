/**
 The chip behind the WIZnet drivers: socket registers and the memory that all transmit and receive rings share,
 packed side by side.  Received datagrams arrive and queued bytes leave at any time.
 */
module WizChip {
  import opened Bytes
  import opened Ring

  const MR_TCP: nat := 0x01
  const MR_UDP: nat := 0x02
  const MR_IPRAW: nat := 0x03
  const MR_MACRAW: nat := 0x04
  const MR_PPPOE: nat := 0x05

  const POINTERS: nat := 0x1_0000

  datatype Frame = Frame(addr: seq<byte>, port: nat, payload: seq<byte>)

  // ----- Datagram framing ------------------------------------------------------------------------------

  function Big16(n: nat): (r: seq<byte>)
    requires n < POINTERS
  {
    [n / 0x100, n % 0x100]
  }

  /** A socket mode with framed datagrams. */
  predicate IsDatagram(protocol: nat) {
    protocol == MR_UDP || protocol == MR_IPRAW || protocol == MR_MACRAW
  }

  predicate Sendable(protocol: nat, f: Frame) {
    && IsDatagram(protocol) && |f.addr| == 4 && f.port < POINTERS
    && |f.payload| < POINTERS && (protocol == MR_MACRAW ==> |f.payload| + 2 < POINTERS)
  }

  function HeaderSize(protocol: nat): (r: nat) {
    if protocol == MR_UDP then 8 else if protocol == MR_IPRAW then 6 else 2
  }

  /** The header the chip puts before a payload. */
  function HeaderOf(protocol: nat, f: Frame): (h: seq<byte>)
    requires Sendable(protocol, f)
    ensures |h| == HeaderSize(protocol)
  {
    if protocol == MR_UDP then f.addr + Big16(f.port) + Big16(|f.payload|)
    else if protocol == MR_IPRAW then f.addr + Big16(|f.payload|)
    else Big16(|f.payload| + 2)
  }

  function Encode(protocol: nat, f: Frame): (r: seq<byte>)
    requires Sendable(protocol, f)
  {
    HeaderOf(protocol, f) + f.payload
  }

  predicate AllSendable(protocol: nat, fs: seq<Frame>) {
    forall f :: f in fs ==> Sendable(protocol, f)
  }

  function EncodeAll(protocol: nat, fs: seq<Frame>): (r: seq<byte>)
    requires AllSendable(protocol, fs)
  {
    if fs == [] then [] else Encode(protocol, fs[0]) + EncodeAll(protocol, fs[1..])
  }

  lemma SendableParts(protocol: nat, a: seq<Frame>, b: seq<Frame>)
    requires AllSendable(protocol, a) && AllSendable(protocol, b)
    ensures AllSendable(protocol, a + b)
  {
    forall f | f in a + b ensures Sendable(protocol, f) {
      assert f in a || f in b;
    }
  }

  lemma SendableTail(protocol: nat, fs: seq<Frame>, n: nat)
    requires AllSendable(protocol, fs) && n <= |fs|
    ensures AllSendable(protocol, fs[n..])
  {
    forall f | f in fs[n..] ensures Sendable(protocol, f) {
      assert f in fs;
    }
  }

  lemma EncodeAllHead(protocol: nat, f: Frame, fs: seq<Frame>)
    requires Sendable(protocol, f) && AllSendable(protocol, fs)
    ensures AllSendable(protocol, [f] + fs)
            && EncodeAll(protocol, [f] + fs) == Encode(protocol, f) + EncodeAll(protocol, fs)
  {
    SendableParts(protocol, [f], fs);
    assert ([f] + fs)[1..] == fs;
  }

  lemma {:induction false} EncodeAllConcat(protocol: nat, a: seq<Frame>, b: seq<Frame>)
    requires AllSendable(protocol, a) && AllSendable(protocol, b)
    ensures AllSendable(protocol, a + b)
            && EncodeAll(protocol, a + b) == EncodeAll(protocol, a) + EncodeAll(protocol, b)
  {
    SendableParts(protocol, a, b);
    if a == [] {
      assert a + b == b;
    } else {
      var f, rest := a[0], a[1..];
      SendableTail(protocol, a, 1);
      assert a == [f] + rest && a + b == [f] + (rest + b);
      assert Sendable(protocol, f);
      hide *;
      EncodeAllConcat(protocol, rest, b);
      EncodeAllHead(protocol, f, rest);
      EncodeAllHead(protocol, f, rest + b);
      Regroup(Encode(protocol, f), EncodeAll(protocol, rest), EncodeAll(protocol, b));
    }
  }

  /** From one 16-bit pointer on to another. */
  function Distance(p: nat, q: nat): (r: nat)
    requires p < POINTERS
  {
    if p <= q then q - p else q + POINTERS - p
  }

  /** A 16-bit pointer moved on. */
  function Advance(p: nat, n: nat): (q: nat)
    ensures q < POINTERS
    ensures p < POINTERS && n <= POINTERS ==> q == if p + n < POINTERS then p + n else p + n - POINTERS
  {
    (p + n) % POINTERS
  }

  /**
   One socket.  An open one receives.  `rxDone` is the chip's own read pointer, set from the register `rxRd` by the
   RECV command; `rsr` counts the bytes received since.  `arrived` and `sent` are history: the datagrams accepted and
   the bytes transmitted so far.
   */
  datatype Sock = Sock(protocol: nat, open: bool, txBits: nat, rxBits: nat, txWr: nat, txRd: nat,
                       rxRd: nat, rxDone: nat, rsr: nat, arrived: seq<Frame>, sent: seq<byte>)
  {
    function TxMax(): (r: nat) { Pow2(txBits) }

    function RxMax(): (r: nat) { Pow2(rxBits) }

    /** Bytes read from the ring since the last RECV command. */
    function Lag(): (r: nat)
      requires rxDone < POINTERS
    {
      Distance(rxDone, rxRd)
    }

    function UnsentCount(): (r: nat)
      requires txRd < POINTERS
    {
      Distance(txRd, txWr)
    }

    predicate Valid() {
      && txBits <= 15 && rxBits <= 15
      && txWr < POINTERS && txRd < POINTERS && rxRd < POINTERS && rxDone < POINTERS
      && Lag() <= rsr <= RxMax()
      && UnsentCount() <= TxMax()
      && AllSendable(protocol, arrived)
    }
  }

  function SumTx(socks: seq<Sock>, n: nat): (r: nat)
    requires n <= |socks|
  {
    if n == 0 then 0 else SumTx(socks, n - 1) + socks[n - 1].TxMax()
  }

  function SumRx(socks: seq<Sock>, n: nat): (r: nat)
    requires n <= |socks|
  {
    if n == 0 then 0 else SumRx(socks, n - 1) + socks[n - 1].RxMax()
  }

  datatype Chip = Chip(mem: seq<byte>, txBuf: nat, rxBuf: nat, bufLen: nat, socks: seq<Sock>)
  {
    /** The ring sizes fit the chip's buffer memory. */
    predicate Valid() {
      && txBuf + bufLen <= rxBuf && rxBuf + bufLen <= |mem| == POINTERS
      && SumTx(socks, |socks|) <= bufLen && SumRx(socks, |socks|) <= bufLen
      && forall k :: 0 <= k < |socks| ==> socks[k].Valid()
    }

    function TxBase(sn: nat): (r: nat)
      requires sn <= |socks|
    {
      txBuf + SumTx(socks, sn)
    }

    function RxBase(sn: nat): (r: nat)
      requires sn <= |socks|
    {
      rxBuf + SumRx(socks, sn)
    }
  }

  lemma {:induction false} SumTxMono(socks: seq<Sock>, i: nat, j: nat)
    requires i < j <= |socks|
    ensures SumTx(socks, i) + socks[i].TxMax() <= SumTx(socks, j)
  {
    if i < j - 1 {
      SumTxMono(socks, i, j - 1);
    }
  }

  lemma {:induction false} SumRxMono(socks: seq<Sock>, i: nat, j: nat)
    requires i < j <= |socks|
    ensures SumRx(socks, i) + socks[i].RxMax() <= SumRx(socks, j)
  {
    if i < j - 1 {
      SumRxMono(socks, i, j - 1);
    }
  }

  /** Sums depend on the sizes alone. */
  lemma {:induction false} SumsFrame(socks: seq<Sock>, sn: nat, s: Sock, n: nat)
    requires sn < |socks| && n <= |socks|
    requires s.txBits == socks[sn].txBits && s.rxBits == socks[sn].rxBits
    ensures SumTx(socks[sn := s], n) == SumTx(socks, n) && SumRx(socks[sn := s], n) == SumRx(socks, n)
  {
    if n > 0 {
      SumsFrame(socks, sn, s, n - 1);
    }
  }

  /** The rings of a valid chip lie in memory. */
  lemma RingsInMemory(c: Chip, sn: nat)
    requires c.Valid() && sn < |c.socks|
    ensures c.TxBase(sn) + c.socks[sn].TxMax() <= c.txBuf + c.bufLen <= c.rxBuf
    ensures c.rxBuf <= c.RxBase(sn) && c.RxBase(sn) + c.socks[sn].RxMax() <= POINTERS == |c.mem|
  {
    SumTxMono(c.socks, sn, |c.socks|);
    SumRxMono(c.socks, sn, |c.socks|);
  }

  // ----- What the rings hold -------------------------------------------------------------------------

  /** The received bytes not yet read by the driver. */
  function Pending(c: Chip, sn: nat): (s: seq<byte>)
    requires c.Valid() && sn < |c.socks|
    ensures |s| == c.socks[sn].rsr - c.socks[sn].Lag()
  {
    RingsInMemory(c, sn);
    var k := c.socks[sn];
    Read(c.mem, c.RxBase(sn), k.RxMax(), Masked(k.rxRd, k.rxBits), k.rsr - k.Lag())
  }

  /** The bytes queued for transmission. */
  function Unsent(c: Chip, sn: nat): (s: seq<byte>)
    requires c.Valid() && sn < |c.socks|
    ensures |s| == c.socks[sn].UnsentCount()
  {
    RingsInMemory(c, sn);
    var k := c.socks[sn];
    Read(c.mem, c.TxBase(sn), k.TxMax(), Masked(k.txRd, k.txBits), k.UnsentCount())
  }

  // ----- Hardware steps ----------------------------------------------------------------------------------

  /** A datagram comes in for a socket, the chip transmits the next `n` queued bytes of one, or one is shut. */
  datatype HwEvent = Rx(sn: nat, frame: Frame) | Tx(sn: nat, n: nat) | Shut(sn: nat)

  /** The datagram is stored if there is room for all of it; otherwise it is dropped. */
  predicate Accepts(c: Chip, sn: nat, f: Frame)
    requires c.Valid()
  {
    && sn < |c.socks| && c.socks[sn].open && Sendable(c.socks[sn].protocol, f)
    && |Encode(c.socks[sn].protocol, f)| <= c.socks[sn].RxMax() - c.socks[sn].rsr
  }

  function Receive(c: Chip, sn: nat, f: Frame): (d: Chip)
    requires c.Valid() && Accepts(c, sn, f)
  {
    RingsInMemory(c, sn);
    var k := c.socks[sn];
    var data := Encode(k.protocol, f);
    c.(mem := Write(c.mem, c.RxBase(sn), k.RxMax(), Wrap(Masked(k.rxDone, k.rxBits), k.rsr, k.RxMax()), data),
       socks := c.socks[sn := k.(rsr := k.rsr + |data|, arrived := k.arrived + [f])])
  }

  function Transmit(c: Chip, sn: nat, n: nat): (d: Chip)
    requires c.Valid() && sn < |c.socks| && n <= c.socks[sn].UnsentCount()
  {
    var k := c.socks[sn];
    c.(socks := c.socks[sn := k.(txRd := Advance(k.txRd, n), sent := k.sent + Unsent(c, sn)[..n])])
  }

  function ShutDown(c: Chip, sn: nat): (r: Chip)
    requires sn < |c.socks|
  {
    c.(socks := c.socks[sn := c.socks[sn].(open := false)])
  }

  /** One hardware step; impossible ones are none. */
  function HwStep(c: Chip, e: HwEvent): (r: Chip)
    requires c.Valid()
  {
    match e
    case Rx(sn, f) => if Accepts(c, sn, f) then Receive(c, sn, f) else c
    case Tx(sn, n) => if sn < |c.socks| && n <= c.socks[sn].UnsentCount() then Transmit(c, sn, n) else c
    case Shut(sn) => if sn < |c.socks| then ShutDown(c, sn) else c
  }

  /**
   Same socket, later: size, mode and host-written pointers stand, datagrams were appended to what is pending
   and queued bytes have left in order.
   */
  ghost predicate LaterAt(c: Chip, d: Chip, sn: nat)
    requires c.Valid() && d.Valid() && sn < |c.socks| == |d.socks|
  {
    && LaterSock(c.socks[sn], d.socks[sn])
    && Brought(c.socks[sn], Pending(c, sn), d.socks[sn], Pending(d, sn))
    && d.socks[sn].sent + Unsent(d, sn) == c.socks[sn].sent + Unsent(c, sn)
  }

  predicate LaterSock(k: Sock, l: Sock) {
    && l.protocol == k.protocol && (l.open ==> k.open) && l.txBits == k.txBits && l.rxBits == k.rxBits
    && l.txWr == k.txWr && l.rxRd == k.rxRd && l.rxDone == k.rxDone
    && k.rsr <= l.rsr
    && k.txRd < POINTERS && l.txRd < POINTERS && l.UnsentCount() <= k.UnsentCount()
  }

  /** What became pending between `k` and `l` is what arrived between them. */
  predicate Brought(k: Sock, before: seq<byte>, l: Sock, after: seq<byte>) {
    && k.arrived <= l.arrived
    && AllSendable(k.protocol, l.arrived[|k.arrived|..])
    && after == before + EncodeAll(k.protocol, l.arrived[|k.arrived|..])
  }

  ghost predicate Later(c: Chip, d: Chip)
    requires c.Valid()
  {
    && d.Valid()
    && d.txBuf == c.txBuf && d.rxBuf == c.rxBuf && d.bufLen == c.bufLen && |d.socks| == |c.socks|
    && forall sn :: 0 <= sn < |c.socks| ==> LaterAt(c, d, sn)
  }

  /** A socket whose registers and rings did not change. */
  lemma LaterSame(c: Chip, d: Chip, sn: nat)
    requires c.Valid() && d.Valid() && sn < |c.socks| == |d.socks|
    requires d.socks[sn] == c.socks[sn].(open := d.socks[sn].open) && (d.socks[sn].open ==> c.socks[sn].open)
    requires Pending(d, sn) == Pending(c, sn) && Unsent(d, sn) == Unsent(c, sn)
    ensures LaterAt(c, d, sn)
  {
    assert d.socks[sn].arrived[|c.socks[sn].arrived|..] == [];
  }

  lemma LaterRefl(c: Chip)
    requires c.Valid()
    ensures Later(c, c)
  {
    forall sn | 0 <= sn < |c.socks| ensures LaterAt(c, c, sn) {
      LaterSame(c, c, sn);
    }
  }

  lemma EncodeNews(protocol: nat, a: seq<Frame>, b: seq<Frame>, c: seq<Frame>)
    requires a <= b <= c && AllSendable(protocol, b[|a|..]) && AllSendable(protocol, c[|b|..])
    ensures AllSendable(protocol, c[|a|..])
    ensures EncodeAll(protocol, c[|a|..]) == EncodeAll(protocol, b[|a|..]) + EncodeAll(protocol, c[|b|..])
  {
    var x, y := b[|a|..], c[|b|..];
    assert c[|a|..] == x + y;
    SendableParts(protocol, x, y);
    EncodeAllConcat(protocol, x, y);
  }

  lemma BroughtTrans(k: Sock, p: seq<byte>, l: Sock, q: seq<byte>, m: Sock, r: seq<byte>)
    requires k.protocol == l.protocol == m.protocol && Brought(k, p, l, q) && Brought(l, q, m, r)
    ensures Brought(k, p, m, r)
  {
    EncodeNews(k.protocol, k.arrived, l.arrived, m.arrived);
    Regroup(p, EncodeAll(k.protocol, l.arrived[|k.arrived|..]), EncodeAll(k.protocol, m.arrived[|l.arrived|..]));
  }

  lemma LaterAtTrans(c: Chip, d: Chip, e: Chip, sn: nat)
    requires c.Valid() && d.Valid() && e.Valid() && sn < |c.socks| == |d.socks| == |e.socks|
    requires LaterAt(c, d, sn) && LaterAt(d, e, sn)
    ensures LaterAt(c, e, sn)
  {
    BroughtTrans(c.socks[sn], Pending(c, sn), d.socks[sn], Pending(d, sn), e.socks[sn], Pending(e, sn));
  }

  lemma LaterTrans(c: Chip, d: Chip, e: Chip)
    requires c.Valid() && d.Valid() && Later(c, d) && Later(d, e)
    ensures Later(c, e)
  {
    forall sn | 0 <= sn < |c.socks| ensures LaterAt(c, e, sn) {
      LaterAtTrans(c, d, e, sn);
    }
  }

  /** Writing one socket's registers leaves the bases of all rings where they are. */
  lemma BasesStay(c: Chip, sn: nat, s: Sock, mem: seq<byte>)
    requires c.Valid() && sn < |c.socks| && |mem| == |c.mem| && s.Valid()
    requires s.txBits == c.socks[sn].txBits && s.rxBits == c.socks[sn].rxBits
    ensures var d := c.(mem := mem, socks := c.socks[sn := s]);
            d.Valid() && forall k :: 0 <= k <= |c.socks| ==> d.TxBase(k) == c.TxBase(k) && d.RxBase(k) == c.RxBase(k)
  {
    forall k | 0 <= k <= |c.socks|
      ensures SumTx(c.socks[sn := s], k) == SumTx(c.socks, k) && SumRx(c.socks[sn := s], k) == SumRx(c.socks, k)
    {
      SumsFrame(c.socks, sn, s, k);
    }
  }

  /** Rings of different sockets, and rings of different directions, do not meet. */
  lemma RingsApart(c: Chip, i: nat, j: nat)
    requires c.Valid() && i < |c.socks| && j < |c.socks|
    ensures i != j ==>
              c.TxBase(i) + c.socks[i].TxMax() <= c.TxBase(j) || c.TxBase(j) + c.socks[j].TxMax() <= c.TxBase(i)
    ensures i != j ==>
              c.RxBase(i) + c.socks[i].RxMax() <= c.RxBase(j) || c.RxBase(j) + c.socks[j].RxMax() <= c.RxBase(i)
    ensures c.TxBase(i) + c.socks[i].TxMax() <= c.RxBase(j)
  {
    RingsInMemory(c, i);
    RingsInMemory(c, j);
    if i < j {
      SumTxMono(c.socks, i, j);
      SumRxMono(c.socks, i, j);
    } else if j < i {
      SumTxMono(c.socks, j, i);
      SumRxMono(c.socks, j, i);
    }
  }

  /** The driver's read pointer, masked, is `Lag` bytes past the chip's. */
  lemma ReadPointer(k: Sock)
    requires k.Valid()
    ensures Masked(k.rxRd, k.rxBits) == Wrap(Masked(k.rxDone, k.rxBits), k.Lag(), k.RxMax())
  {
    AdvancePointer(k.rxDone, k.Lag(), k.rxBits);
    assert Advance(k.rxDone, k.Lag()) == k.rxRd;
  }

  lemma ReceiveRegisters(c: Chip, sn: nat, f: Frame)
    requires c.Valid() && Accepts(c, sn, f)
    ensures var k, l := c.socks[sn], Receive(c, sn, f).socks[sn];
            l.Valid() && l.Lag() == k.Lag() && l.rsr == k.rsr + |Encode(k.protocol, f)|
    ensures Receive(c, sn, f).Valid()
    ensures Receive(c, sn, f).RxBase(sn) == c.RxBase(sn)
  {
    var d := Receive(c, sn, f);
    SendableParts(c.socks[sn].protocol, c.socks[sn].arrived, [f]);
    BasesStay(c, sn, d.socks[sn], d.mem);
  }

  /** A store into socket `sn`'s receive ring, behind everything in it, appends to what it holds. */
  lemma ReceiveAppends(c: Chip, sn: nat, f: Frame)
    requires c.Valid() && Accepts(c, sn, f)
    ensures var d := Receive(c, sn, f); d.Valid() && Pending(d, sn) == Pending(c, sn) + Encode(c.socks[sn].protocol, f)
  {
    var k, d := c.socks[sn], Receive(c, sn, f);
    var data, max, m, held := Encode(k.protocol, f), k.RxMax(), Masked(k.rxRd, k.rxBits), k.rsr - k.Lag();
    ReceiveRegisters(c, sn, f);
    RingsInMemory(c, sn);
    ReadPointer(k);
    assert Wrap(Masked(k.rxDone, k.rxBits), k.rsr, max) == Wrap(m, held, max);
    WriteAppends(c.mem, c.RxBase(sn), max, m, held, data);
  }

  lemma ReceiveKeepsTx(c: Chip, sn: nat, f: Frame, i: nat)
    requires c.Valid() && Accepts(c, sn, f) && i < |c.socks|
    ensures var d := Receive(c, sn, f); d.Valid() && Unsent(d, i) == Unsent(c, i)
  {
    var k, d := c.socks[sn], Receive(c, sn, f);
    BasesStay(c, sn, d.socks[sn], d.mem);
    RingsInMemory(c, sn);
    RingsInMemory(c, i);
    RingsApart(c, i, sn);
    var l := c.socks[i];
    WriteElsewhere(c.mem, c.RxBase(sn), k.RxMax(), Wrap(Masked(k.rxDone, k.rxBits), k.rsr, k.RxMax()),
                   Encode(k.protocol, f),
                   c.TxBase(i), l.TxMax(), Masked(l.txRd, l.txBits), l.UnsentCount());
  }

  lemma ReceiveKeepsRx(c: Chip, sn: nat, f: Frame, i: nat)
    requires c.Valid() && Accepts(c, sn, f) && i < |c.socks| && i != sn
    ensures var d := Receive(c, sn, f); d.Valid() && Pending(d, i) == Pending(c, i)
  {
    var k, d := c.socks[sn], Receive(c, sn, f);
    BasesStay(c, sn, d.socks[sn], d.mem);
    RingsInMemory(c, sn);
    RingsInMemory(c, i);
    RingsApart(c, i, sn);
    var l := c.socks[i];
    WriteElsewhere(c.mem, c.RxBase(sn), k.RxMax(), Wrap(Masked(k.rxDone, k.rxBits), k.rsr, k.RxMax()),
                   Encode(k.protocol, f),
                   c.RxBase(i), l.RxMax(), Masked(l.rxRd, l.rxBits), l.rsr - l.Lag());
  }

  lemma ReceiveLater(c: Chip, sn: nat, f: Frame)
    requires c.Valid() && Accepts(c, sn, f)
    ensures Later(c, Receive(c, sn, f))
  {
    var d := Receive(c, sn, f);
    ReceiveAppends(c, sn, f);
    forall i | 0 <= i < |c.socks| ensures LaterAt(c, d, i) {
      ReceiveKeepsTx(c, sn, f, i);
      if i != sn {
        ReceiveKeepsRx(c, sn, f, i);
        LaterSame(c, d, i);
      } else {
        assert d.socks[sn].arrived[|c.socks[sn].arrived|..] == [f];
        assert EncodeAll(c.socks[sn].protocol, [f]) == Encode(c.socks[sn].protocol, f);
      }
    }
  }

  lemma CountAfterTransmit(wr: nat, rd: nat, n: nat)
    requires wr < POINTERS && rd < POINTERS && n <= Distance(rd, wr)
    ensures Distance(Advance(rd, n), wr) == Distance(rd, wr) - n
  {
  }

  lemma TransmitRegisters(c: Chip, sn: nat, n: nat)
    requires c.Valid() && sn < |c.socks| && n <= c.socks[sn].UnsentCount()
    ensures var k, l := c.socks[sn], Transmit(c, sn, n).socks[sn];
            l.Valid() && l.UnsentCount() == k.UnsentCount() - n
    ensures Transmit(c, sn, n).Valid()
    ensures Transmit(c, sn, n).TxBase(sn) == c.TxBase(sn)
  {
    var k, d := c.socks[sn], Transmit(c, sn, n);
    CountAfterTransmit(k.txWr, k.txRd, n);
    BasesStay(c, sn, d.socks[sn], d.mem);
  }

  /** Moving a pointer on by `n` skips `n` bytes of what it points at. */
  lemma AdvanceSkips(mem: seq<byte>, base: nat, bits: nat, ptr: nat, n: nat, u: nat)
    requires bits <= 15 && n <= u <= Pow2(bits) && base + Pow2(bits) <= |mem|
    ensures Read(mem, base, Pow2(bits), Masked(Advance(ptr, n), bits), u - n)
            == Read(mem, base, Pow2(bits), Masked(ptr, bits), u)[n..]
    ensures Read(mem, base, Pow2(bits), Masked(ptr, bits), n) == Read(mem, base, Pow2(bits), Masked(ptr, bits), u)[..n]
  {
    AdvancePointer(ptr, n, bits);
    ReadSplit(mem, base, Pow2(bits), Masked(ptr, bits), n, u - n);
  }

  lemma TransmitSends(c: Chip, sn: nat, n: nat)
    requires c.Valid() && sn < |c.socks| && n <= c.socks[sn].UnsentCount()
    ensures var d := Transmit(c, sn, n); d.Valid() && Unsent(d, sn) == Unsent(c, sn)[n..]
  {
    var k := c.socks[sn];
    var u := k.UnsentCount();
    TransmitRegisters(c, sn, n);
    RingsInMemory(c, sn);
    AdvanceSkips(c.mem, c.TxBase(sn), k.txBits, k.txRd, n, u);
  }

  lemma TransmitLaterAt(c: Chip, sn: nat, n: nat)
    requires c.Valid() && sn < |c.socks| && n <= c.socks[sn].UnsentCount()
    ensures var d := Transmit(c, sn, n); d.Valid() && LaterAt(c, d, sn)
  {
    var d := Transmit(c, sn, n);
    TransmitSends(c, sn, n);
    TransmitRegisters(c, sn, n);
    BasesStay(c, sn, d.socks[sn], c.mem);
    assert d.socks[sn].arrived[|c.socks[sn].arrived|..] == [];
    var u, k := Unsent(c, sn), c.socks[sn];
    assert k.sent + u[..n] + u[n..] == k.sent + u;
  }

  lemma TransmitLater(c: Chip, sn: nat, n: nat)
    requires c.Valid() && sn < |c.socks| && n <= c.socks[sn].UnsentCount()
    ensures Later(c, Transmit(c, sn, n))
  {
    var d := Transmit(c, sn, n);
    TransmitLaterAt(c, sn, n);
    BasesStay(c, sn, d.socks[sn], c.mem);
    forall i | 0 <= i < |c.socks| && i != sn ensures LaterAt(c, d, i) {
      LaterSame(c, d, i);
    }
  }

  lemma ShutDownLater(c: Chip, sn: nat)
    requires c.Valid() && sn < |c.socks|
    ensures Later(c, ShutDown(c, sn))
  {
    var d := ShutDown(c, sn);
    BasesStay(c, sn, d.socks[sn], c.mem);
    forall i | 0 <= i < |c.socks| ensures LaterAt(c, d, i) {
      LaterSame(c, d, i);
    }
  }

  lemma HwStepLater(c: Chip, e: HwEvent)
    requires c.Valid()
    ensures Later(c, HwStep(c, e))
  {
    LaterRefl(c);
    match e {
      case Rx(sn, f) =>
        if Accepts(c, sn, f) {
          ReceiveLater(c, sn, f);
        }
      case Tx(sn, n) =>
        if sn < |c.socks| && n <= c.socks[sn].UnsentCount() {
          TransmitLater(c, sn, n);
        }
      case Shut(sn) =>
        if sn < |c.socks| {
          ShutDownLater(c, sn);
        }
    }
  }

  /** What happens at one register access. */
  function Evolve(c: Chip, es: seq<HwEvent>): (d: Chip)
    requires c.Valid()
    ensures d.Valid() && Later(c, d)
    decreases |es|
  {
    LaterRefl(c);
    if es == [] then c
    else
      HwStepLater(c, es[0]);
      var d := Evolve(HwStep(c, es[0]), es[1..]);
      LaterTrans(c, HwStep(c, es[0]), d);
      d
  }

  /** The chip after `n` register accesses, the first of them number `t`; `hw(i)` happens at access `i`. */
  function After(c: Chip, hw: nat -> seq<HwEvent>, t: nat, n: nat): (d: Chip)
    requires c.Valid()
    ensures d.Valid() && Later(c, d)
    decreases n
  {
    LaterRefl(c);
    if n == 0 then c
    else
      var b := After(c, hw, t, n - 1);
      LaterTrans(c, b, Evolve(b, hw(t + n - 1)));
      Evolve(b, hw(t + n - 1))
  }

  /** Left to itself, a socket fills with what arrives and empties of what is sent; once shut it stays so. */
  predicate Grown(k: Sock, l: Sock) {
    k.txBits == l.txBits && k.rsr <= l.rsr && l.Valid() && k.Valid() && l.UnsentCount() <= k.UnsentCount()
    && (l.open ==> k.open)
  }

  lemma EvolveGrows(c: Chip, es: seq<HwEvent>, sn: nat)
    requires c.Valid() && sn < |c.socks|
    ensures |Evolve(c, es).socks| == |c.socks| && Grown(c.socks[sn], Evolve(c, es).socks[sn])
  {
    assert LaterAt(c, Evolve(c, es), sn);
  }

  lemma {:induction false} AfterGrows(c: Chip, hw: nat -> seq<HwEvent>, t: nat, m: nat, n: nat, sn: nat)
    requires c.Valid() && m <= n && sn < |c.socks|
    ensures Grown(After(c, hw, t, m).socks[sn], After(c, hw, t, n).socks[sn])
    decreases n
  {
    if m < n {
      AfterGrows(c, hw, t, m, n - 1, sn);
      var a := After(c, hw, t, n - 1);
      EvolveGrows(a, hw(t + n - 1), sn);
    }
  }

  /** Where the rings lie does not change either. */
  lemma {:induction false} LaterBases(c: Chip, d: Chip, n: nat)
    requires c.Valid() && Later(c, d) && n <= |c.socks|
    ensures d.TxBase(n) == c.TxBase(n) && d.RxBase(n) == c.RxBase(n)
  {
    if n > 0 {
      assert LaterAt(c, d, n - 1);
      LaterBases(c, d, n - 1);
    }
  }

  lemma {:induction false} AfterFirst(c: Chip, hw: nat -> seq<HwEvent>, t: nat, n: nat)
    requires c.Valid()
    ensures After(Evolve(c, hw(t)), hw, t + 1, n) == After(c, hw, t, n + 1)
  {
    if n > 0 {
      AfterFirst(c, hw, t, n - 1);
    }
  }
}
