/**
 The datagram half of the socket layer (socket.c) over the W5100 family's register and ring access code
 (W5100/w5100.c, W5100S/w5100s.c, W5200/w5200.c).  The chip goes on between any two accesses of the driver.
 */
module WizSocket {
  import opened Bytes
  import opened Ring
  import opened WizChip
  import opened WizDriver
  import opened Datagrams
  import opened WizSync
  import opened DoubleRead

  const SOCK_OK: int := 1
  const SOCK_BUSY: int := 0
  const SOCKERR_SOCKNUM: int := -1
  const SOCKERR_SOCKCLOSED: int := -4
  const SOCKERR_SOCKMODE: int := -5
  const SOCKERR_SOCKSTATUS: int := -7
  const SOCKERR_ARG: int := -10
  const SOCKERR_PORTZERO: int := -11
  const SOCKERR_IPINVALID: int := -12
  const SOCKERR_TIMEOUT: int := -13
  const SOCKERR_DATALEN: int := -14
  const SOCKFATAL_PACKLEN: int := -1001

  const WAIT_ON: int := 2

  const IO_BLOCK: nat := 0
  const IO_NONBLOCK: nat := 1

  const PACK_FIRST: nat := 0x80
  const PACK_REMAINED: nat := 0x01
  const PACK_COMPLETED: nat := 0x00

  lemma BasesLater(b: Chip, c: Chip, d: Chip, i: nat)
    requires b.Valid() && c.Valid() && Later(b, c) && Later(c, d) && i < |c.socks|
    ensures Later(b, d) && d.TxBase(i) == c.TxBase(i) && d.RxBase(i) == c.RxBase(i)
    ensures |d.socks| == |c.socks|
    ensures d.TxBase(i + 1) == d.TxBase(i) + d.socks[i].TxMax() && d.RxBase(i + 1) == d.RxBase(i) + d.socks[i].RxMax()
  {
    LaterBases(c, d, i);
    LaterTrans(b, c, d);
  }

  // ----- The size registers as the driver may read them ------------------------------------------------

  datatype SizeRegister = RxRsr | TxFsr

  function SizeOf(k: Sock, which: SizeRegister): (r: nat)
    requires k.Valid()
    ensures r < 0x1_0000
  {
    RingBelow32K(k);
    match which
    case RxRsr => k.rsr
    case TxFsr => k.TxMax() - k.UnsentCount()
  }

  /** The size after `n` accesses, the driver doing nothing from access `t` on. */
  function SizeAfter(c: Chip, hw: nat -> seq<HwEvent>, t: nat, sn: nat, which: SizeRegister, n: nat): (r: nat)
    requires c.Valid() && sn < |c.socks|
    ensures r < 0x1_0000
  {
    AfterGrows(c, hw, t, 0, n, sn);
    SizeOf(After(c, hw, t, n).socks[sn], which)
  }

  function SizeAt(c: Chip, hw: nat -> seq<HwEvent>, t: nat, sn: nat, which: SizeRegister, i: nat): (r: nat) {
    if c.Valid() && sn < |c.socks| && i >= t then SizeAfter(c, hw, t, sn, which, i - t + 1) else 0
  }

  /** The register at access `i`. */
  function Readings(c: Chip, hw: nat -> seq<HwEvent>, t: nat, sn: nat, which: SizeRegister): (r: nat -> nat) {
    (i: nat) => SizeAt(c, hw, t, sn, which, i)
  }

  /** Neither size shrinks while the driver only looks. */
  lemma SizeGrows(c: Chip, hw: nat -> seq<HwEvent>, t: nat, sn: nat, which: SizeRegister, m: nat, n: nat)
    requires c.Valid() && sn < |c.socks| && m <= n
    ensures SizeAfter(c, hw, t, sn, which, m) <= SizeAfter(c, hw, t, sn, which, n)
  {
    AfterGrows(c, hw, t, m, n, sn);
  }

  lemma SizeAtGrows(c: Chip, hw: nat -> seq<HwEvent>, t: nat, sn: nat, which: SizeRegister, i: nat, j: nat)
    requires c.Valid() && sn < |c.socks| && t <= i <= j
    ensures SizeAt(c, hw, t, sn, which, i) <= SizeAt(c, hw, t, sn, which, j) < 0x1_0000
  {
    hide After;
    SizeGrows(c, hw, t, sn, which, i - t + 1, j - t + 1);
  }

  lemma ReadingsGrow(c: Chip, hw: nat -> seq<HwEvent>, t: nat, sn: nat, which: SizeRegister, k: nat)
    requires c.Valid() && sn < |c.socks|
    ensures Grows(Readings(c, hw, t, sn, which), t + k)
  {
    var reg := Readings(c, hw, t, sn, which);
    forall i: nat, j: nat | t <= i <= j ensures reg(i) <= reg(j) < 0x1_0000 {
      SizeAtGrows(c, hw, t, sn, which, i, j);
    }
    forall i: nat | t <= i ensures reg(i) < 0x1_0000 {
      SizeAtGrows(c, hw, t, sn, which, i, i);
    }
  }

  /**
   A reading while the size goes from `first` to `last`: never too much, too little only if it grew, and zero only
   if it was below 256 to begin with.
   */
  predicate Seen(first: nat, last: nat, val: nat) {
    val <= last && (val < first ==> first < last) && (val == 0 ==> first < 0x100)
  }

  /** The size at some instant from access `k` to access `m`. */
  ghost predicate Snapshot(c: Chip, hw: nat -> seq<HwEvent>, t: nat, sn: nat, which: SizeRegister, k: nat, m: nat,
                           val: nat)
    requires c.Valid() && sn < |c.socks|
  {
    exists i: nat :: k <= i <= m && val == SizeAfter(c, hw, t, sn, which, i)
  }

  lemma SizeSeen(c: Chip, hw: nat -> seq<HwEvent>, t: nat, sn: nat, which: SizeRegister, k: nat, j: nat, m: nat,
                 val: nat)
    requires c.Valid() && sn < |c.socks| && k <= j <= m
    requires Seen(SizeAfter(c, hw, t, sn, which, j), SizeAfter(c, hw, t, sn, which, m), val)
    ensures Seen(SizeAfter(c, hw, t, sn, which, k), SizeAfter(c, hw, t, sn, which, m), val)
  {
    SizeGrows(c, hw, t, sn, which, k, j);
  }

  lemma ReadingIs(c: Chip, hw: nat -> seq<HwEvent>, t: nat, sn: nat, which: SizeRegister, i: nat)
    requires c.Valid() && sn < |c.socks|
    ensures Readings(c, hw, t, sn, which)(t + i) == SizeAfter(c, hw, t, sn, which, i + 1)
  {
  }

  lemma SizeRead(c: Chip, hw: nat -> seq<HwEvent>, t: nat, sn: nat, which: SizeRegister, reg: nat -> nat,
                 k: nat, i: nat, at: nat, val: nat)
    requires c.Valid() && sn < |c.socks| && reg == Readings(c, hw, t, sn, which)
    requires k <= i && Seen(reg(t + k), reg(t + i), val)
    requires val != 0 ==> k <= at <= i && reg(t + at) == val
    ensures Seen(SizeAfter(c, hw, t, sn, which, k), SizeAfter(c, hw, t, sn, which, i + 1), val)
    ensures val != 0 ==> Snapshot(c, hw, t, sn, which, k, i + 1, val)
  {
    hide SizeAfter;
    ReadingIs(c, hw, t, sn, which, k);
    ReadingIs(c, hw, t, sn, which, i);
    SizeSeen(c, hw, t, sn, which, k, k + 1, i + 1, val);
    if val != 0 {
      ReadingIs(c, hw, t, sn, which, at);
    }
  }

  /** getSn_RX_RSR and getSn_TX_FSR: the size as read after `k` accesses, over at access `m`. */
  method GetSize(c: Chip, hw: nat -> seq<HwEvent>, t: nat, sn: nat, which: SizeRegister, k: nat)
    returns (val: nat, m: nat)
    requires c.Valid() && sn < |c.socks|
    ensures k < m && Seen(SizeAfter(c, hw, t, sn, which, k), SizeAfter(c, hw, t, sn, which, m), val)
    ensures val != 0 ==> Snapshot(c, hw, t, sn, which, k, m, val)
  {
    hide SizeAfter;
    hide Readings;
    ghost var at;
    var reg := Readings(c, hw, t, sn, which);
    ReadingsGrow(c, hw, t, sn, which, k);
    var i;
    val, i, at := ReadFrom(reg, t, k);
    m := i + 1;
    SizeRead(c, hw, t, sn, which, reg, k, i, at, val);
  }

  method ReadFrom(reg: nat -> nat, t: nat, k: nat) returns (val: nat, i: nat, ghost at: nat)
    requires Grows(reg, t + k)
    ensures k <= i && Seen(reg(t + k), reg(t + i), val)
    ensures val != 0 ==> k <= at <= i && reg(t + at) == val
  {
    var next;
    val, next, at := ReadSize(reg, t + k);
    i := next - t - 1;
    if val != 0 {
      at := at - t;
    }
    assert reg(t + k) <= reg(t + i);
  }

  predicate PerSocket(n: nat, nonBlocking: seq<bool>, remained: seq<nat>, packInfo: seq<nat>, begun: seq<nat>) {
    |nonBlocking| == n && |remained| == n && |packInfo| == n && |begun| == n
  }

  predicate TooLong(mode: nat, f: Frame) {
    mode == MR_MACRAW && |f.payload| > 1514
  }

  /** In step, and all that was read is committed. */
  predicate Settled(c: Chip, sn: nat, remained: nat, begun: nat)
    requires c.Valid() && sn < |c.socks|
  {
    c.socks[sn].Lag() == 0 && InSync(c, sn, remained, begun)
  }

  /** What sock_pack_info holds between calls. */
  function PackInfo(remained: nat): (r: nat) {
    if remained > 0 then PACK_FIRST + PACK_REMAINED else PACK_COMPLETED
  }

  /** `info | PACK_REMAINED` */
  function WithRemained(info: nat): (r: nat) {
    if info % 2 == 0 then info + PACK_REMAINED else info
  }

  // ----- Waiting ---------------------------------------------------------------------------------------

  /** By access `n` there is enough of it, or the socket is shut. */
  ghost predicate Over(c: Chip, hw: nat -> seq<HwEvent>, t: nat, sn: nat, which: SizeRegister, need: nat, n: nat)
    requires c.Valid() && sn < |c.socks|
  {
    AfterGrows(c, hw, t, 0, n, sn);
    need <= SizeAfter(c, hw, t, sn, which, n) || !After(c, hw, t, n).socks[sn].open
  }

  ghost predicate WaitEnds(c: Chip, hw: nat -> seq<HwEvent>, t: nat, sn: nat, which: SizeRegister, need: nat)
    requires c.Valid() && sn < |c.socks|
  {
    exists n: nat :: Over(c, hw, t, sn, which, need, n)
  }

  lemma WaitEndsStill(c: Chip, hw: nat -> seq<HwEvent>, t: nat, sn: nat, which: SizeRegister, need: nat)
    requires c.Valid() && sn < |c.socks| && WaitEnds(c, hw, t, sn, which, need)
    ensures var d := Evolve(c, hw(t)); sn < |d.socks| && WaitEnds(d, hw, t + 1, sn, which, need)
  {
    var n: nat :| Over(c, hw, t, sn, which, need, n);
    var d := Evolve(c, hw(t));
    EvolveGrows(c, hw(t), sn);
    AfterFirst(c, hw, t, n);
    AfterGrows(c, hw, t, n, n + 1, sn);
    assert Over(d, hw, t + 1, sn, which, need, n);
  }

  // ----- When a wait for something to read ends ---------------------------------------------------------

  /** Nothing to read, and not shut. */
  predicate Waiting(k: Sock) {
    k.open && k.rsr == 0
  }

  /** The event shuts the socket, or is a datagram that its empty ring can hold. */
  predicate Brings(e: HwEvent, sn: nat, protocol: nat, max: nat) {
    match e
    case Rx(i, f) => i == sn && Sendable(protocol, f) && |Encode(protocol, f)| <= max
    case Tx(_, _) => false
    case Shut(i) => i == sn
  }

  predicate BringsAny(es: seq<HwEvent>, sn: nat, protocol: nat, max: nat) {
    exists k :: 0 <= k < |es| && Brings(es[k], sn, protocol, max)
  }

  ghost predicate BroughtFrom(hw: nat -> seq<HwEvent>, t: nat, sn: nat, protocol: nat, max: nat) {
    exists i: nat :: t <= i && BringsAny(hw(i), sn, protocol, max)
  }

  lemma StepBrings(c: Chip, e: HwEvent, sn: nat)
    requires c.Valid() && sn < |c.socks|
    ensures var d, k := HwStep(c, e), c.socks[sn];
            && d.Valid() && |d.socks| == |c.socks| && d.socks[sn].protocol == k.protocol
               && d.socks[sn].rxBits == k.rxBits
            && (Waiting(d.socks[sn]) <==> Waiting(k) && !Brings(e, sn, k.protocol, k.RxMax()))
  {
    HwStepLater(c, e);
    assert LaterAt(c, HwStep(c, e), sn);
  }

  lemma BringsFirst(es: seq<HwEvent>, sn: nat, protocol: nat, max: nat)
    requires es != []
    ensures BringsAny(es, sn, protocol, max) <==>
            Brings(es[0], sn, protocol, max) || BringsAny(es[1..], sn, protocol, max)
  {
    forall k | 0 < k < |es| ensures es[k] == es[1..][k - 1] {
    }
  }

  lemma {:induction false} EvolveBrings(c: Chip, es: seq<HwEvent>, sn: nat)
    requires c.Valid() && sn < |c.socks|
    ensures var d, k := Evolve(c, es), c.socks[sn];
            && |d.socks| == |c.socks| && d.socks[sn].protocol == k.protocol && d.socks[sn].rxBits == k.rxBits
            && (Waiting(d.socks[sn]) <==> Waiting(k) && !BringsAny(es, sn, k.protocol, k.RxMax()))
    decreases |es|
  {
    if es != [] {
      StepBrings(c, es[0], sn);
      EvolveBrings(HwStep(c, es[0]), es[1..], sn);
      BringsFirst(es, sn, c.socks[sn].protocol, c.socks[sn].RxMax());
    }
  }

  lemma {:induction false} AfterBrings(c: Chip, hw: nat -> seq<HwEvent>, t: nat, n: nat, sn: nat)
    requires c.Valid() && sn < |c.socks|
    ensures var d, k := After(c, hw, t, n), c.socks[sn];
            && |d.socks| == |c.socks| && d.socks[sn].protocol == k.protocol && d.socks[sn].rxBits == k.rxBits
            && (Waiting(d.socks[sn]) <==>
                Waiting(k) && forall i :: t <= i < t + n ==> !BringsAny(hw(i), sn, k.protocol, k.RxMax()))
    decreases n
  {
    if n > 0 {
      AfterBrings(c, hw, t, n - 1, sn);
      EvolveBrings(After(c, hw, t, n - 1), hw(t + n - 1), sn);
    }
  }

  lemma OverIsNotWaiting(c: Chip, hw: nat -> seq<HwEvent>, t: nat, sn: nat, n: nat)
    requires c.Valid() && sn < |c.socks|
    ensures sn < |After(c, hw, t, n).socks|
    ensures Over(c, hw, t, sn, RxRsr, 1, n) <==> !Waiting(After(c, hw, t, n).socks[sn])
  {
    AfterGrows(c, hw, t, 0, n, sn);
  }

  /** A wait for something to read ends if and only if there is something, or something will be brought. */
  lemma WaitEndsExactly(c: Chip, hw: nat -> seq<HwEvent>, t: nat, sn: nat)
    requires c.Valid() && sn < |c.socks|
    ensures WaitEnds(c, hw, t, sn, RxRsr, 1) <==>
            !Waiting(c.socks[sn]) || BroughtFrom(hw, t, sn, c.socks[sn].protocol, c.socks[sn].RxMax())
  {
    var k := c.socks[sn];
    forall n: nat
      ensures Over(c, hw, t, sn, RxRsr, 1, n) <==>
              !(Waiting(k) && forall i :: t <= i < t + n ==> !BringsAny(hw(i), sn, k.protocol, k.RxMax()))
    {
      OverIsNotWaiting(c, hw, t, sn, n);
      AfterBrings(c, hw, t, n, sn);
    }
    if !Waiting(k) {
      assert Over(c, hw, t, sn, RxRsr, 1, 0);
    } else if BroughtFrom(hw, t, sn, k.protocol, k.RxMax()) {
      var i: nat :| t <= i && BringsAny(hw(i), sn, k.protocol, k.RxMax());
      assert Over(c, hw, t, sn, RxRsr, 1, i - t + 1);
    }
  }

  /** Accesses until `n`, and room for the size to grow. */
  ghost function Left(n: nat, k: nat, size: nat): (r: nat)
    requires size < 0x1_0000
  {
    (if k < n then n - k else 0) + 0x1_0000 - size
  }

  lemma StaysOver(c: Chip, hw: nat -> seq<HwEvent>, t: nat, sn: nat, which: SizeRegister, need: nat, n: nat,
                  k: nat, m: nat)
    requires c.Valid() && sn < |c.socks| && Over(c, hw, t, sn, which, need, n) && n <= k <= m
    requires var e := After(c, hw, t, m); sn < |e.socks| && e.socks[sn].open
    ensures need <= SizeAfter(c, hw, t, sn, which, k)
  {
    AfterGrows(c, hw, t, n, m, sn);
    SizeGrows(c, hw, t, sn, which, n, k);
  }

  /** One round of the polling loop, from access `k` over `m` to `p`, that finds too little and the socket open. */
  lemma RoundCloser(c: Chip, hw: nat -> seq<HwEvent>, t: nat, sn: nat, which: SizeRegister, need: nat, n: nat,
                    k: nat, m: nat, p: nat, size: nat)
    requires c.Valid() && sn < |c.socks| && Over(c, hw, t, sn, which, need, n) && k < m < p && size < need
    requires Seen(SizeAfter(c, hw, t, sn, which, k), SizeAfter(c, hw, t, sn, which, m), size)
    requires var e := After(c, hw, t, p); sn < |e.socks| && e.socks[sn].open
    ensures Left(n, p, SizeAfter(c, hw, t, sn, which, p)) < Left(n, k, SizeAfter(c, hw, t, sn, which, k))
  {
    SizeGrows(c, hw, t, sn, which, k, m);
    SizeGrows(c, hw, t, sn, which, m, p);
    if n <= k {
      StaysOver(c, hw, t, sn, which, need, n, k, p);
    }
  }

  /** How a wait ends, socket and chip having gone from `k` to `l`. */
  predicate Waited(code: int, size: nat, need: nat, nonBlocking: bool, k: Sock, l: Sock, which: SizeRegister) {
    && k.Valid() && l.Valid()
    && (code == SOCK_OK || code == SOCK_BUSY || code == SOCKERR_SOCKCLOSED)
    && (code == SOCK_OK ==> need <= size <= SizeOf(l, which))
    && (code == SOCKERR_SOCKCLOSED <==> !l.open)
    && (code == SOCK_BUSY ==> nonBlocking && size < need && Seen(SizeOf(k, which), SizeOf(l, which), size))
  }

  /** One round of the loop: it goes on when there is too little and the socket is open and blocking. */
  method Round(c: Chip, hw: nat -> seq<HwEvent>, t: nat, sn: nat, which: SizeRegister, need: nat, nonBlocking: bool,
               k: nat) returns (code: int, size: nat, ghost m: nat, p: nat)
    requires c.Valid() && sn < |c.socks|
    ensures k < m < p
    ensures Seen(SizeAfter(c, hw, t, sn, which, k), SizeAfter(c, hw, t, sn, which, m), size)
    ensures var e := After(c, hw, t, p);
            && sn < |e.socks|
            && code == if !e.socks[sn].open then SOCKERR_SOCKCLOSED else if need <= size then SOCK_OK
                       else if nonBlocking then SOCK_BUSY else WAIT_ON
  {
    var n;
    size, n := GetSize(c, hw, t, sn, which, k);
    m, p := n, n + 1;
    AfterGrows(c, hw, t, 0, p, sn);
    var e := After(c, hw, t, p);
    code := if !e.socks[sn].open then SOCKERR_SOCKCLOSED else if nonBlocking && size < need then SOCK_BUSY
            else if need <= size then SOCK_OK else WAIT_ON;
  }

  lemma RoundOver(c: Chip, hw: nat -> seq<HwEvent>, t: nat, sn: nat, which: SizeRegister, k: nat, m: nat, p: nat,
                  size: nat)
    requires c.Valid() && sn < |c.socks| && k < m < p
    requires Seen(SizeAfter(c, hw, t, sn, which, k), SizeAfter(c, hw, t, sn, which, m), size)
    ensures Seen(SizeAfter(c, hw, t, sn, which, k), SizeAfter(c, hw, t, sn, which, p), size)
    ensures sn < |After(c, hw, t, p).socks| && c.socks[sn].Valid() && After(c, hw, t, p).socks[sn].Valid()
  {
    SizeGrows(c, hw, t, sn, which, m, p);
    AfterGrows(c, hw, t, 0, p, sn);
  }

  /** The polling loops of recvfrom and sendto. */
  method Poll(c: Chip, hw: nat -> seq<HwEvent>, t: nat, sn: nat, which: SizeRegister, need: nat, nonBlocking: bool)
    returns (code: int, size: nat, n: nat)
    requires c.Valid() && sn < |c.socks|
    requires nonBlocking || WaitEnds(c, hw, t, sn, which, need)
    ensures sn < |After(c, hw, t, n).socks|
    ensures Waited(code, size, need, nonBlocking, c.socks[sn], After(c, hw, t, n).socks[sn], which)
  {
    ghost var last: nat :| nonBlocking || Over(c, hw, t, sn, which, need, last);
    n := 0;
    while true
      invariant nonBlocking ==> n == 0
      decreases Left(last, n, SizeAfter(c, hw, t, sn, which, n))
    {
      var k := n;
      ghost var m;
      code, size, m, n := Round(c, hw, t, sn, which, need, nonBlocking, k);
      if code != WAIT_ON {
        RoundOver(c, hw, t, sn, which, k, m, n, size);
        return;
      }
      RoundCloser(c, hw, t, sn, which, need, last, k, m, n, size);
    }
  }

  /** `addr` is where the block starts that is `off` bytes behind the masked pointer; its `n` bytes do not wrap. */
  predicate IsBlock(addr: nat, n: nat, base: nat, max: nat, mask: nat, off: nat) {
    mask < max && off + n <= max && addr == base + Wrap(mask, off, max) && addr + n <= base + max
  }

  /** At most two blocks make up `len` bytes from a masked pointer on. */
  lemma BlockRule(base: nat, max: nat, mask: nat, len: nat)
    requires mask < max && len <= max
    ensures mask + len > max ==> IsBlock(base + mask, max - mask, base, max, mask, 0)
                                 && IsBlock(base, len - (max - mask), base, max, mask, max - mask)
    ensures mask + len <= max ==> IsBlock(base + mask, len, base, max, mask, 0)
  {
  }

  lemma NextByte(b: Chip, c: Chip, d: Chip, sn: nat, addr: nat, n: nat, off: nat, i: nat)
    requires b.Valid() && c.Valid() && sn < |b.socks| && Later(b, c) && Later(c, d)
    requires off + n <= |Pending(b, sn)| && i < n
    requires IsBlock(addr, n, b.RxBase(sn), b.socks[sn].RxMax(), Masked(b.socks[sn].rxRd, b.socks[sn].rxBits), off)
    ensures Later(b, d) && addr + i < |d.mem|
    ensures Pending(b, sn)[off..off + i + 1] == Pending(b, sn)[off..off + i] + [d.mem[addr + i]]
  {
    LaterTrans(b, c, d);
    PendingByte(b, d, sn, off + i);
  }

  lemma RxStays(c: Chip, d: Chip, sn: nat)
    requires c.Valid() && sn < |c.socks| && Later(c, d)
    ensures |d.socks| == |c.socks|
    ensures var k, l := c.socks[sn], d.socks[sn];
            && l.rxRd == k.rxRd && l.rxBits == k.rxBits && d.RxBase(sn) == c.RxBase(sn)
            && Pending(c, sn) <= Pending(d, sn) && |Pending(d, sn)| <= l.RxMax()
  {
    assert LaterAt(c, d, sn);
    LaterBases(c, d, sn);
  }

  lemma LocatedRx(b: Chip, c: Chip, d: Chip, e: Chip, sn: nat)
    requires b.Valid() && c.Valid() && d.Valid() && sn < |b.socks| && Later(b, c) && Later(c, d) && Later(d, e)
    ensures Later(b, e)
    ensures e.socks[sn].rxRd == c.socks[sn].rxRd && e.socks[sn].rxBits == d.socks[sn].rxBits
  {
    RxStays(c, d, sn);
    RxStays(d, e, sn);
    LaterTrans(b, c, d);
    LaterTrans(b, d, e);
  }

  lemma PendingBlocks(c: Chip, d: Chip, e: Chip, sn: nat, size: nat, len: nat)
    requires c.Valid() && d.Valid() && sn < |c.socks| && Later(c, d) && Later(d, e)
    requires size <= len <= |Pending(c, sn)|
    ensures Later(c, e) && len <= |Pending(d, sn)|
    ensures Pending(c, sn)[0..size] + Pending(d, sn)[size..len] == Pending(c, sn)[..len]
  {
    RxStays(c, d, sn);
    LaterTrans(c, d, e);
  }

  /** Later, the same bytes are in front. */
  lemma PendingStays(c: Chip, d: Chip, sn: nat, len: nat)
    requires c.Valid() && sn < |c.socks| && Later(c, d) && len <= |Pending(c, sn)|
    ensures len <= |Pending(d, sn)| && Pending(d, sn)[..len] == Pending(c, sn)[..len]
  {
    RxStays(c, d, sn);
  }

  lemma TakeRule(b: Chip, c: Chip, d: Chip, mid: Chip, sn: nat, len: nat)
    requires b.Valid() && c.Valid() && d.Valid() && Later(b, c) && Later(c, d) && Later(d, mid)
    requires sn < |b.socks| && len <= |Pending(b, sn)|
    ensures Later(b, mid) && sn < |mid.socks| && mid.socks[sn].rxRd == c.socks[sn].rxRd
    ensures len <= |Pending(mid, sn)| && Pending(mid, sn)[..len] == Pending(b, sn)[..len]
    ensures Taken(mid, sn, len).Valid()
  {
    LaterTrans(c, d, mid);
    LaterTrans(b, c, mid);
    RxStays(c, mid, sn);
    PendingStays(b, mid, sn, len);
    TakenRegisters(mid, sn, len);
  }

  /** Big-endian fields; a raw Ethernet length counts its own two bytes. */
  method ParseHeader(mode: nat, head: seq<byte>, addr0: seq<byte>, port0: nat, ghost f: Frame)
    returns (size: nat, addr: seq<byte>, port: nat)
    requires Sendable(mode, f) && head == HeaderOf(mode, f)
    ensures size == |f.payload| && (addr, port) == Sender(mode, f, addr0, port0)
  {
    HeaderDecodes(mode, f);
    addr, port := addr0, port0;
    if mode == MR_UDP {
      addr, port, size := head[..4], Word(head[4], head[5]), Word(head[6], head[7]);
    } else if mode == MR_IPRAW {
      addr, size := head[..4], Word(head[4], head[5]);
    } else {
      size := (Word(head[0], head[1]) + POINTERS - 2) % POINTERS;
    }
  }

  /**
   What recvfrom did, the socket having gone from `k` to `l`: it shut a socket that got an over-long raw frame, or
   found the socket closed, or found nothing (which it may do wrongly with up to 255 bytes there if more came in
   meanwhile), or it returned the next fragment.
   */
  predicate Outcome(k: Sock, l: Sock, nonBlocking: bool, len: nat, remained0: nat, begun0: nat, remained: nat,
                    begun: nat,
                    ret: int, data: seq<byte>, from0: (seq<byte>, nat), from: (seq<byte>, nat)) {
    if ret == SOCKFATAL_PACKLEN then
      && remained0 == 0 && begun0 < |l.arrived| && TooLong(l.protocol, l.arrived[begun0])
      && !l.open && remained == 0 && begun == begun0 + 1 && data == []
    else if remained == remained0 && begun == begun0 then
      && remained0 == 0 && data == [] && from == from0
      && (ret == SOCKERR_SOCKCLOSED || ret == SOCK_BUSY) && (ret == SOCKERR_SOCKCLOSED <==> !l.open)
      && (ret == SOCK_BUSY ==> nonBlocking && Seen(k.rsr, l.rsr, 0))
    else
      && ret >= 0 && Returned(l, len, remained0, begun0, remained, begun, ret, data, from0, from)
      && (remained0 == 0 && begun0 < |l.arrived| ==> !TooLong(l.protocol, l.arrived[begun0]))
  }

  lemma MoreIsOutcome(k: Sock, l: Sock, nonBlocking: bool, len: nat, remained0: nat, remained: nat, begun: nat,
                      ret: nat, data: seq<byte>, from: (seq<byte>, nat))
    requires remained < remained0 && Returned(l, len, remained0, begun, remained, begun, ret, data, from, from)
    ensures Outcome(k, l, nonBlocking, len, remained0, begun, remained, begun, ret, data, from, from)
  {
  }

  /** What that is when a datagram is begun. */
  lemma FirstMeans(k: Sock, l: Sock, nonBlocking: bool, len: nat, remained0: nat, begun0: nat,
                   remained: nat, begun: nat, ret: int, data: seq<byte>,
                   from0: (seq<byte>, nat), from: (seq<byte>, nat))
    requires len > 0 && begun != begun0 && ret >= 0
    requires Outcome(k, l, nonBlocking, len, remained0, begun0, remained, begun, ret, data, from0, from)
    ensures remained0 == 0 && begun == begun0 + 1 <= |l.arrived|
    ensures var f := l.arrived[begun0];
            && ret == |data| == (if len < |f.payload| then len else |f.payload|) && data == f.payload[..ret]
            && remained == |f.payload| - ret && !(l.protocol == MR_MACRAW && |f.payload| > 1514)
            && (l.protocol == MR_UDP ==> from == (f.addr, f.port))
            && (l.protocol == MR_IPRAW ==> from == (f.addr, from0.1))
            && (l.protocol == MR_MACRAW ==> from == from0)
  {
    if remained0 == 0 {
      StreamBegins(l.arrived, begun0);
      var f := l.arrived[begun0];
      StreamContinues(l.arrived, |f.payload|, begun0 + 1, Min(len, |f.payload|));
      SameStream(l.arrived, remained, begun, |f.payload| - Min(len, |f.payload|), begun0 + 1);
    } else {
      MoreMeans(k, l, nonBlocking, len, remained0, begun0, remained, begun, ret, data, from0, from);
    }
  }

  lemma FatalMeans(k: Sock, l: Sock, nonBlocking: bool, len: nat, remained0: nat, begun0: nat,
                   remained: nat, begun: nat, data: seq<byte>, from0: (seq<byte>, nat), from: (seq<byte>, nat))
    requires Outcome(k, l, nonBlocking, len, remained0, begun0, remained, begun, SOCKFATAL_PACKLEN, data, from0, from)
    ensures remained0 == 0 && remained == 0 && begun == begun0 + 1 && begun0 < |l.arrived| && !l.open && data == []
    ensures l.protocol == MR_MACRAW && |l.arrived[begun0].payload| > 1514
  {
  }

  /** Where in the stream the driver is fixes its counts. */
  lemma SameStream(all: seq<Frame>, remained: nat, begun: nat, remained': nat, begun': nat)
    requires Counted(all, remained, begun) && Counted(all, remained', begun')
    requires StreamOf(all, remained, begun) == StreamOf(all, remained', begun')
    ensures remained == remained' && begun == begun'
  {
    assert |all[begun..]| == |all[begun'..]|;
    assert |RestOf(all, remained, begun)| == remained && |RestOf(all, remained', begun')| == remained';
  }

  /** And when one is gone on with. */
  lemma MoreMeans(k: Sock, l: Sock, nonBlocking: bool, len: nat, remained0: nat, begun0: nat, remained: nat, begun: nat,
                  ret: int, data: seq<byte>, from0: (seq<byte>, nat), from: (seq<byte>, nat))
    requires len > 0 && remained0 > 0
    requires Outcome(k, l, nonBlocking, len, remained0, begun0, remained, begun, ret, data, from0, from)
    ensures begun == begun0 && 0 < begun <= |l.arrived| && remained0 <= |l.arrived[begun - 1].payload|
    ensures var p := l.arrived[begun - 1].payload;
            && ret == |data| == (if len < remained0 then len else remained0)
            && data == p[|p| - remained0..][..ret] && remained == remained0 - ret && from == from0
  {
    StreamContinues(l.arrived, remained0, begun0, Min(len, remained0));
    SameStream(l.arrived, remained, begun, remained0 - Min(len, remained0), begun0);
  }

  /**
   A result of zero is ambiguous: it means that nothing was there, or that an empty datagram was taken.  In both
   cases sock_pack_info then says PACK_COMPLETED; it never says PACK_FIRST, by which socket.h would tell them apart.
   */
  lemma ZeroIsAmbiguous(k: Sock, l: Sock, nonBlocking: bool, len: nat, remained0: nat, begun0: nat,
                        remained: nat, begun: nat, ret: int, data: seq<byte>, from0: (seq<byte>, nat),
                        from: (seq<byte>, nat))
    requires len > 0 && Outcome(k, l, nonBlocking, len, remained0, begun0, remained, begun, ret, data, from0, from)
    ensures ret == 0 <==> (remained == remained0 && begun == begun0 && l.open)
                          || (remained0 == 0 && begun == begun0 + 1 <= |l.arrived| && l.arrived[begun0].payload == []
                              && ret != SOCKFATAL_PACKLEN)
    ensures ret == 0 ==> PackInfo(remained) == PACK_COMPLETED
  {
    if ret >= 0 && !(remained == remained0 && begun == begun0) {
      if remained0 == 0 {
        StreamBegins(l.arrived, begun0);
      } else {
        StreamContinues(l.arrived, remained0, begun0, Min(len, remained0));
      }
    }
  }

  /** A socket that has received nothing yet is in step from the start. */
  lemma FreshIsSettled(c: Chip, sn: nat)
    requires c.Valid() && sn < |c.socks| && IsDatagram(c.socks[sn].protocol)
    requires c.socks[sn].arrived == [] && c.socks[sn].rsr == 0
    ensures Settled(c, sn, 0, 0)
  {
    assert Pending(c, sn) == [];
    assert c.socks[sn].arrived[0..] == [];
  }

  /** Receiving on one socket leaves the others in step. */
  lemma OthersStaySettled(c: Chip, d: Chip, sn: nat, i: nat, remained: nat, begun: nat)
    requires c.Valid() && sn < |c.socks| && i < |c.socks| && i != sn && ReceivesOnly(c, d, sn)
    requires Settled(c, i, remained, begun)
    ensures Settled(d, i, remained, begun)
  {
    SyncLater(c, d, i, remained, begun);
  }

  lemma OutcomeSince(j: Sock, k: Sock, l: Sock, nonBlocking: bool, len: nat, remained0: nat, begun0: nat,
                     remained: nat, begun: nat, ret: int, data: seq<byte>, from0: (seq<byte>, nat),
                     from: (seq<byte>, nat))
    requires j.rsr <= k.rsr
    requires Outcome(k, l, nonBlocking, len, remained0, begun0, remained, begun, ret, data, from0, from)
    ensures Outcome(j, l, nonBlocking, len, remained0, begun0, remained, begun, ret, data, from0, from)
  {
  }

  lemma AwaitRule(c: Chip, d: Chip, sn: nat, begun: nat)
    requires c.Valid() && sn < |c.socks| && Later(c, d) && Settled(c, sn, 0, begun)
    ensures d.Valid() && sn < |d.socks| && ReceivesOnly(c, d, sn) && Settled(d, sn, 0, begun)
    ensures d.socks[sn].rsr > 0 ==> begun < |d.socks[sn].arrived|
  {
    LaterReceives(c, d, sn);
    assert LaterAt(c, d, sn);
    SyncLater(c, d, sn, 0, begun);
    NothingPending(d, sn, 0, begun);
  }

  lemma FirstFragment(b: Chip, c: Chip, d: Chip, sn: nat, len: nat, begun: nat, data: seq<byte>, from: (seq<byte>, nat))
    requires b.Valid() && c.Valid() && sn < |b.socks| && ReceivesOnly(b, c, sn) && ReceivesOnly(c, d, sn)
    requires begun < |b.socks[sn].arrived|
    requires var f := b.socks[sn].arrived[begun];
             && Counted(c.socks[sn].arrived, |f.payload|, begun + 1)
             && var rest := RestOf(c.socks[sn].arrived, |f.payload|, begun + 1);
             var n := Min(len, |f.payload|); n <= |rest| && data == rest[..n]
    ensures var f := b.socks[sn].arrived[begun];
            var n := Min(len, |f.payload|);
            Returned(d.socks[sn], len, 0, begun, |f.payload| - n, begun + 1, |data|, data, from,
                     Sender(b.socks[sn].protocol, f, from.0, from.1))
  {
    StreamBegins(c.socks[sn].arrived, begun);
    FirstDelivered(d.socks[sn].protocol, c.socks[sn].arrived, d.socks[sn].arrived, len, begun, data, from);
  }

  /** The next byte of a block: the chip goes on, then the byte is stored. */
  lemma StoreNext(b: Chip, c: Chip, es: seq<HwEvent>, sn: nat, off: nat, i: nat, addr: nat, data: seq<byte>)
    requires b.Valid() && c.Valid() && sn < |b.socks| && Later(b, c) && i < |data|
    requires Fits(b, sn, off + |data|) && Fits(c, sn, off + i)
    requires IsBlock(addr, |data|, b.TxBase(sn), b.socks[sn].TxMax(), Masked(b.socks[sn].txWr, b.socks[sn].txBits), off)
    requires Staged(c, sn, off + i) == Staged(b, sn, off) + data[..i]
    ensures var d := Evolve(c, es);
            && addr + i < |d.mem| && b.TxBase(sn) <= addr + i < b.TxBase(sn) + b.socks[sn].TxMax()
            && var e := d.(mem := d.mem[addr + i := data[i]]);
               && Later(b, e) && Fits(e, sn, off + (i + 1))
               && Staged(e, sn, off + (i + 1)) == Staged(b, sn, off) + data[..i + 1]
  {
    hide Later;
    hide Evolve;
    hide Chip.Valid;
    hide Sock.Valid;
    var d := Evolve(c, es);
    EvolvedBlock(b, c, es, sn, off + i);
    BlockAddress(addr, |data|, b.TxBase(sn), b.socks[sn].TxMax(), Masked(b.socks[sn].txWr, b.socks[sn].txBits), off, i);
    StoreAt(d, sn, off + i, addr + i, data[i]);
    LaterTrans(b, d, Stored(d, sn, off + i, data[i]));
    Regroup(Staged(b, sn, off), data[..i], [data[i]]);
    assert data[..i + 1] == data[..i] + [data[i]];
  }

  /** From `b` to `c` the first `i` bytes were staged, and no other ring was written. */
  ghost predicate StagedSoFar(b: Chip, c: Chip, sn: nat, off: nat, i: nat, data: seq<byte>)
    requires b.Valid() && i <= |data|
  {
    && c.Valid() && Fits(b, sn, off + |data|) && Fits(c, sn, off + i) && Later(b, c) && OtherTxKept(b, c, sn)
    && Staged(c, sn, off + i) == Staged(b, sn, off) + data[..i]
  }

  lemma StagedFirst(b: Chip, sn: nat, off: nat, data: seq<byte>)
    requires b.Valid() && sn < |b.socks| && Fits(b, sn, off + |data|)
    ensures StagedSoFar(b, b, sn, off, 0, data)
  {
    LaterRefl(b);
    assert data[..0] == [];
  }

  lemma StagedAll(b: Chip, c: Chip, sn: nat, off: nat, data: seq<byte>)
    requires b.Valid() && StagedSoFar(b, c, sn, off, |data|, data)
    ensures c.Valid() && Later(b, c) && OtherTxKept(b, c, sn) && Fits(b, sn, off + |data|) && Fits(c, sn, off + |data|)
    ensures Staged(c, sn, off + |data|) == Staged(b, sn, off) + data
  {
    assert data[..|data|] == data;
  }

  lemma StagedNext(b: Chip, c: Chip, es: seq<HwEvent>, sn: nat, off: nat, i: nat, addr: nat, data: seq<byte>)
    requires b.Valid() && sn < |b.socks| && i < |data| && StagedSoFar(b, c, sn, off, i, data)
    requires IsBlock(addr, |data|, b.TxBase(sn), b.socks[sn].TxMax(), Masked(b.socks[sn].txWr, b.socks[sn].txBits), off)
    ensures var d := Evolve(c, es);
            && addr + i < |d.mem|
            && var e := d.(mem := d.mem[addr + i := data[i]]); e.Valid() && StagedSoFar(b, e, sn, off, i + 1, data)
  {
    assert c.Valid() && Later(b, c) && OtherTxKept(b, c, sn) && Fits(c, sn, off + i);
    assert Staged(c, sn, off + i) == Staged(b, sn, off) + data[..i];
    hide Later;
    hide Evolve;
    hide Chip.Valid;
    hide Sock.Valid;
    hide Staged;
    hide OtherTxKept;
    hide IsBlock;
    hide TxKept;
    StoreNext(b, c, es, sn, off, i, addr, data);
    EvolveKeepsTx(c, es);
    StoreKeepsOtherTx(b, c, Evolve(c, es), sn, addr + i, data[i]);
  }

  lemma BlockAddress(addr: nat, n: nat, base: nat, max: nat, mask: nat, off: nat, i: nat)
    requires IsBlock(addr, n, base, max, mask, off) && i < n
    ensures addr + i == base + Wrap(mask, off + i, max) && base <= addr + i < base + max
  {
  }

  lemma EvolvedBlock(b: Chip, c: Chip, es: seq<HwEvent>, sn: nat, n: nat)
    requires b.Valid() && c.Valid() && sn < |b.socks| && Later(b, c) && Fits(c, sn, n)
    ensures var d := Evolve(c, es);
            && Later(b, d) && Fits(d, sn, n) && Staged(d, sn, n) == Staged(c, sn, n)
            && d.socks[sn].txWr == b.socks[sn].txWr && d.socks[sn].txBits == b.socks[sn].txBits
            && d.socks[sn].UnsentCount() <= b.socks[sn].UnsentCount() && d.TxBase(sn) == b.TxBase(sn)
  {
    var d := Evolve(c, es);
    LaterTrans(b, c, d);
    TxStays(b, d, sn);
    EvolveKeepsStaged(c, es, sn, n);
  }

  lemma TxStays(c: Chip, d: Chip, sn: nat)
    requires c.Valid() && sn < |c.socks| && Later(c, d)
    ensures |d.socks| == |c.socks|
    ensures var k, l := c.socks[sn], d.socks[sn];
            && l.txWr == k.txWr && l.txBits == k.txBits && l.UnsentCount() <= k.UnsentCount()
            && d.TxBase(sn) == c.TxBase(sn)
  {
    assert LaterAt(c, d, sn);
    LaterBases(c, d, sn);
  }

  lemma StoreAt(d: Chip, sn: nat, n: nat, a: nat, b: byte)
    requires d.Valid() && Fits(d, sn, n + 1)
    requires a == d.TxBase(sn) + Wrap(Masked(d.socks[sn].txWr, d.socks[sn].txBits), n, d.socks[sn].TxMax())
    ensures var e := Stored(d, sn, n, b);
            && a < |d.mem| && e == d.(mem := d.mem[a := b])
            && e.Valid() && Later(d, e) && Staged(e, sn, n + 1) == Staged(d, sn, n) + [b]
  {
    RingsInMemory(d, sn);
    var k := d.socks[sn];
    WriteOne(d.mem, d.TxBase(sn), k.TxMax(), Wrap(Masked(k.txWr, k.txBits), n, k.TxMax()), b);
    StoredLater(d, sn, n, b);
    StoredStages(d, sn, n, b);
  }

  lemma LocatedTx(b: Chip, c: Chip, d: Chip, e: Chip, sn: nat)
    requires b.Valid() && c.Valid() && d.Valid() && sn < |b.socks| && Later(b, c) && Later(c, d) && Later(d, e)
    ensures Later(b, e)
    ensures e.socks[sn].txWr == c.socks[sn].txWr && e.socks[sn].txBits == d.socks[sn].txBits
  {
    TxStays(c, d, sn);
    TxStays(d, e, sn);
    LaterTrans(b, c, d);
    LaterTrans(b, d, e);
  }

  lemma SendRule(b: Chip, c: Chip, d: Chip, sn: nat, data: seq<byte>)
    requires b.Valid() && c.Valid() && sn < |b.socks| && Later(b, c) && (exists es :: d == Evolve(c, es))
    requires Fits(c, sn, |data|) && Staged(c, sn, |data|) == data
    ensures Later(c, d) && d.socks[sn].txWr == c.socks[sn].txWr && Advanced(d, sn, |data|).Valid()
    ensures SendsOnly(b, Advanced(d, sn, |data|), sn, data)
  {
    var es :| d == Evolve(c, es);
    EvolveKeepsStaged(c, es, sn, |data|);
    LaterTrans(b, c, d);
    TxStays(c, d, sn);
    AdvancedSends(b, d, sn, |data|);
  }

  /** What sendto answers to arguments; bit 2 of the mode tells raw Ethernet from UDP and raw IP. */
  function ArgumentCode(protocol: nat, n: nat, addr: seq<byte>, port: nat): (code: int)
    ensures code == SOCK_OK <==>
            IsDatagram(protocol) && n > 0 && (protocol == MR_MACRAW || (addr != [0, 0, 0, 0] && port != 0))
  {
    if protocol != MR_UDP && protocol != MR_MACRAW && protocol != MR_IPRAW then SOCKERR_SOCKMODE
    else if n == 0 then SOCKERR_DATALEN
    else if addr == [0, 0, 0, 0] && protocol / 4 % 2 == 0 then SOCKERR_IPINVALID
    else if port == 0 && protocol / 4 % 2 == 0 then SOCKERR_PORTZERO
    else SOCK_OK
  }

  /** There was not room for `n` bytes at first, or room was being made. */
  predicate Crowded(c: Chip, d: Chip, sn: nat, n: nat) {
    && sn < |c.socks| && sn < |d.socks| && c.socks[sn].Valid() && d.socks[sn].Valid()
    && (SizeOf(c.socks[sn], TxFsr) < n || SizeOf(c.socks[sn], TxFsr) < SizeOf(d.socks[sn], TxFsr))
  }

  lemma CrowdedSince(b: Chip, c: Chip, d: Chip, sn: nat, n: nat)
    requires b.Valid() && sn < |b.socks| && Later(b, c) && Crowded(c, d, sn, n)
    ensures Crowded(b, d, sn, n)
  {
    assert LaterAt(b, c, sn);
  }

  // ----- The interrupt register --------------------------------------------------------------------------

  /** The bits that answer a SEND command. */
  datatype Answer = Answer(sendOk: bool, timeout: bool) {
    predicate Any() { sendOk || timeout }
  }

  /**
   Per socket, the access from which each bit counts again after it was cleared, and the sockets with data being
   sent.
   */
  datatype Irq = Irq(okSince: map<nat, nat>, timeoutSince: map<nat, nat>, sending: set<nat>)

  function SinceOf(since: map<nat, nat>, sn: nat): (t: nat) {
    if sn in since then since[sn] else 0
  }

  /** What the register of a socket holds before access `t`: what the chip raised at accesses since it was cleared. */
  function Register(raised: (nat, nat) -> Answer, irq: Irq, sn: nat, t: nat): (r: Answer) {
    Answer(exists i :: SinceOf(irq.okSince, sn) <= i < t && raised(sn, i).sendOk,
           exists i :: SinceOf(irq.timeoutSince, sn) <= i < t && raised(sn, i).timeout)
  }

  /** Access `i` finds an answer in the register. */
  predicate Found(raised: (nat, nat) -> Answer, irq: Irq, sn: nat, i: nat) {
    Register(raised, irq, sn, i + 1).Any()
  }

  /** Writing a bit to the register at access `t - 1` clears it. */
  function ClearOk(irq: Irq, sn: nat, t: nat): (r: Irq) {
    irq.(okSince := irq.okSince[sn := t])
  }

  function ClearTimeout(irq: Irq, sn: nat, t: nat): (r: Irq) {
    irq.(timeoutSince := irq.timeoutSince[sn := t])
  }

  lemma ClearedRegister(raised: (nat, nat) -> Answer, irq: Irq, sn: nat, t: nat)
    ensures Register(raised, ClearOk(irq, sn, t), sn, t) == Register(raised, irq, sn, t).(sendOk := false)
    ensures Register(raised, ClearTimeout(irq, sn, t), sn, t) == Register(raised, irq, sn, t).(timeout := false)
    ensures forall i: nat :: i != sn ==> Register(raised, ClearOk(irq, sn, t), i, t) == Register(raised, irq, i, t)
    ensures forall i: nat :: i != sn ==> Register(raised, ClearTimeout(irq, sn, t), i, t) == Register(raised, irq, i, t)
  {
  }

  /** Bits stay until they are cleared, and come from what the chip raises. */
  lemma RegisterGrows(raised: (nat, nat) -> Answer, irq: Irq, sn: nat, t: nat)
    requires SinceOf(irq.okSince, sn) <= t && SinceOf(irq.timeoutSince, sn) <= t
    ensures var r, a := Register(raised, irq, sn, t), raised(sn, t);
            Register(raised, irq, sn, t + 1) == Answer(r.sendOk || a.sendOk, r.timeout || a.timeout)
  {
    var r, r', a := Register(raised, irq, sn, t), Register(raised, irq, sn, t + 1), raised(sn, t);
    assert r'.sendOk <==> r.sendOk || a.sendOk;
    assert r'.timeout <==> r.timeout || a.timeout;
  }

  /**
   What sendto did: queued as much of `buf` as the ring can ever hold, also when the answer to the SEND command is a
   timeout; or nothing, for one of these reasons.
   */
  ghost predicate SentOrNot(c: Chip, d: Chip, sn: nat, nonBlocking: bool, buf: seq<byte>, argumentCode: int, ret: int)
    requires c.Valid() && sn < |c.socks|
  {
    var len := Min(|buf|, c.socks[sn].TxMax());
    if ret > 0 || ret == SOCKERR_TIMEOUT then
      && argumentCode == SOCK_OK && SendsOnly(c, d, sn, buf[..len]) && (ret > 0 ==> ret == len)
    else
      && Later(c, d)
      && if argumentCode != SOCK_OK then ret == argumentCode
         else if ret == SOCK_BUSY then nonBlocking && Crowded(c, d, sn, len)
         else (ret == SOCKERR_SOCKSTATUS || ret == SOCKERR_SOCKCLOSED) && !d.socks[sn].open
  }

  lemma SentMeans(c: Chip, d: Chip, sn: nat, nonBlocking: bool, buf: seq<byte>, addr: seq<byte>, port: nat, ret: int)
    requires c.Valid() && sn < |c.socks|
    requires SentOrNot(c, d, sn, nonBlocking, buf, ArgumentCode(c.socks[sn].protocol, |buf|, addr, port), ret)
    ensures var p := c.socks[sn].protocol;
            if p !in {MR_UDP, MR_IPRAW, MR_MACRAW} then ret == SOCKERR_SOCKMODE
            else if buf == [] then ret == SOCKERR_DATALEN
            else if p != MR_MACRAW && addr == [0, 0, 0, 0] then ret == SOCKERR_IPINVALID
            else if p != MR_MACRAW && port == 0 then ret == SOCKERR_PORTZERO
            else ret > 0 || ret in {SOCK_BUSY, SOCKERR_SOCKSTATUS, SOCKERR_SOCKCLOSED, SOCKERR_TIMEOUT}
    ensures ret > 0 || ret == SOCKERR_TIMEOUT ==>
              && d.Valid() && |d.socks| == |c.socks|
              && var max := c.socks[sn].TxMax(); var len := if |buf| < max then |buf| else max;
              (ret > 0 ==> ret == len)
              && d.socks[sn].sent + Unsent(d, sn) == c.socks[sn].sent + Unsent(c, sn) + buf[..len]
  {
  }

  lemma SentSince(b: Chip, c: Chip, d: Chip, sn: nat, data: seq<byte>)
    requires b.Valid() && c.Valid() && sn < |b.socks| && Later(b, c) && (SendsOnly(c, d, sn, data) || Later(c, d))
    ensures SendsOnly(c, d, sn, data) ==> SendsOnly(b, d, sn, data)
    ensures Later(c, d) ==> Later(b, d)
  {
    if SendsOnly(c, d, sn, data) {
      SendsLater(b, c, d, sn, data);
    }
    if Later(c, d) {
      LaterTrans(b, c, d);
    }
  }

  // ----- Many calls ----------------------------------------------------------------------------------------

  /** What one call of recvfrom gives its caller. */
  datatype Received = Received(ret: int, data: seq<byte>, addr: seq<byte>, port: nat)

  lemma ReceivesArrived(c: Chip, d: Chip, sn: nat)
    requires c.Valid() && sn < |c.socks| && ReceivesOnly(c, d, sn)
    ensures d.Valid() && |d.socks| == |c.socks|
    ensures d.socks[sn].protocol == c.socks[sn].protocol && d.socks[sn].rxBits == c.socks[sn].rxBits
    ensures c.socks[sn].arrived <= d.socks[sn].arrived
  {
  }

  /** What a call of recvfrom did, as a link of the chain. */
  lemma NextCall(calls: seq<Call>, k: Sock, l: Sock, nonBlocking: bool, len: nat, remained0: nat, begun0: nat,
                 remained: nat, begun: nat, ret: int, data: seq<byte>,
                 from0: (seq<byte>, nat), from: (seq<byte>, nat))
    returns (more: seq<Call>)
    requires Chain(calls) && LastOf(calls).all <= l.arrived
    requires LastOf(calls).remained == remained0 && LastOf(calls).begun == begun0
    requires Outcome(k, l, nonBlocking, len, remained0, begun0, remained, begun, ret, data, from0, from)
    ensures Chain(more) && LastOf(more).all <= l.arrived && LastOf(more).remained == remained
    ensures LastOf(more).begun == if ret == SOCKFATAL_PACKLEN then begun - 1 else begun
    ensures IsNext(calls, more, l.protocol, Received(ret, data, from.0, from.1), from0.0, from0.1)
  {
    more := calls;
    if ret != SOCKFATAL_PACKLEN && !(remained == remained0 && begun == begun0) {
      var frag := ReturnedIsNext(calls, l, len, remained, begun, ret, data, from0, from);
      more := calls + [Call(l.arrived, len, remained, begun, frag)];
    }
  }

  /** The last call shut the socket for an over-long raw frame. */
  predicate GaveUp(results: seq<Received>) {
    results != [] && results[|results| - 1].ret == SOCKFATAL_PACKLEN
  }

  lemma ReceivesRefl(c: Chip, sn: nat)
    requires c.Valid() && sn < |c.socks|
    ensures ReceivesOnly(c, c, sn)
  {
    LaterRefl(c);
    LaterReceives(c, c, sn);
  }

  /**
   `more` is `calls`, if nothing was delivered, or goes on with what was, under its sender if it is a first
   fragment.
   */
  predicate IsNext(calls: seq<Call>, more: seq<Call>, protocol: nat, r: Received, addr0: seq<byte>, port0: nat) {
    if more == calls then r.data == []
    else
      && |more| == |calls| + 1 && more[..|calls|] == calls && r.ret == |r.data| && r.data == more[|calls|].frag.data
      && match more[|calls|].frag
         case First(f, _) =>
           && (protocol == MR_UDP ==> r.addr == f.addr && r.port == f.port)
           && (protocol == MR_IPRAW ==> r.addr == f.addr && r.port == port0)
           && (protocol == MR_MACRAW ==> r.addr == addr0 && r.port == port0)
         case More(_) => r.addr == addr0 && r.port == port0
  }

  lemma SentThroughout(b: Chip, c: Chip, d: Chip, e: Chip, sn: nat, data: seq<byte>)
    requires b.Valid() && c.Valid() && sn < |b.socks| && Later(b, c) && SendsOnly(c, d, sn, data)
    requires d.Valid() && Later(d, e)
    ensures SendsOnly(b, e, sn, data)
  {
    SendsThenLater(c, d, e, sn, data);
    SendsLater(b, c, e, sn, data);
  }

  /** The first access from `t` on that finds a bit: with none left over, the first at which one is raised. */
  lemma {:induction false} FirstAnswer(raised: (nat, nat) -> Answer, irq: Irq, sn: nat, t: nat, at: nat)
    requires SinceOf(irq.okSince, sn) <= t && SinceOf(irq.timeoutSince, sn) <= t <= at
    requires Found(raised, irq, sn, at)
    requires forall i :: t <= i < at ==> !Found(raised, irq, sn, i)
    ensures var left, r := Register(raised, irq, sn, t), Register(raised, irq, sn, at + 1);
            if left.Any() then at == t && (r.sendOk <==> left.sendOk || raised(sn, at).sendOk)
            else
              && raised(sn, at).Any() && r.sendOk == raised(sn, at).sendOk
              && forall i :: t <= i < at ==> !raised(sn, i).Any()
    decreases at - t
  {
    RegisterGrows(raised, irq, sn, t);
    if t < at {
      assert !Found(raised, irq, sn, t);
      FirstAnswer(raised, irq, sn, t + 1, at);
    }
  }

  class WizSocket {
    var chip: Chip
    /** Number of the next access to the chip, and what the chip does on its own at each. */
    var now: nat
    const hw: nat -> seq<HwEvent>
    /** What the chip raises for a socket at each access. */
    const raised: (nat, nat) -> Answer
    var irq: Irq
    /** The chip's own address and subnet mask, and where each socket's datagrams go. */
    var sipr: nat
    var subr: nat
    var dest: map<nat, (seq<byte>, nat)>
    /** Per socket: non-blocking I/O, unread bytes of the datagram begun last, and what that says to the caller. */
    var nonBlocking: seq<bool>
    var remained: seq<nat>
    var packInfo: seq<nat>
    /** How many datagrams were begun. */
    ghost var begun: seq<nat>

    constructor (chip: Chip, hw: nat -> seq<HwEvent>, raised: (nat, nat) -> Answer, sipr: nat, subr: nat)
      ensures this.chip == chip && this.hw == hw && this.raised == raised && now == 0 && Sized()
      ensures irq == Irq(map[], map[], {})
      ensures this.sipr == sipr && this.subr == subr && dest == map[]
      ensures forall i :: 0 <= i < |chip.socks| ==>
                !nonBlocking[i] && remained[i] == 0 && packInfo[i] == PACK_COMPLETED && begun[i] == 0
    {
      this.chip, this.hw, this.raised, now := chip, hw, raised, 0;
      irq := Irq(map[], map[], {});
      this.sipr, this.subr, dest := sipr, subr, map[];
      nonBlocking := seq(|chip.socks|, i => false);
      remained := seq(|chip.socks|, i => 0);
      packInfo := seq(|chip.socks|, i => PACK_COMPLETED);
      begun := seq(|chip.socks|, i => 0);
    }

    // ----- Blocking or not ----------------------------------------------------------------------------

    /** ctlsocket with CS_SET_IOMODE. */
    method SetIoMode(sn: nat, mode: nat) returns (code: int)
      requires Sized() && sn != |chip.socks|
      modifies `nonBlocking
      ensures Sized()
      ensures code == if |chip.socks| < sn then SOCKERR_SOCKNUM
                      else if mode == IO_NONBLOCK || mode == IO_BLOCK then SOCK_OK else SOCKERR_ARG
      ensures nonBlocking == if code == SOCK_OK then old(nonBlocking)[sn := mode == IO_NONBLOCK] else old(nonBlocking)
    {
      if sn > |chip.socks| {
        return SOCKERR_SOCKNUM;
      }
      if mode == IO_NONBLOCK {
        nonBlocking := nonBlocking[sn := true];
      } else if mode == IO_BLOCK {
        nonBlocking := nonBlocking[sn := false];
      } else {
        return SOCKERR_ARG;
      }
      code := SOCK_OK;
    }

    // ----- Access to the chip -----------------------------------------------------------------------

    /** The chip's own steps at one access. */
    method Access()
      requires chip.Valid()
      modifies `chip, `now
      ensures chip == Evolve(old(chip), hw(old(now))) && now == old(now) + 1 && TxKept(old(chip), chip)
    {
      EvolveKeepsTx(chip, hw(now));
      chip := Evolve(chip, hw(now));
      now := now + 1;
    }

    /** The next access of a summing loop; `b` is the chip at its begin. */
    method Summing(i: nat, ghost b: Chip)
      requires b.Valid() && chip.Valid() && i < |chip.socks| && Later(b, chip) && TxKept(b, chip)
      modifies `chip, `now
      ensures chip.Valid() && now == old(now) + 1 && |chip.socks| == |old(chip).socks| && Later(b, chip)
              && TxKept(b, chip)
      ensures chip.TxBase(i + 1) == old(chip).TxBase(i) + chip.socks[i].TxMax()
      ensures chip.RxBase(i + 1) == old(chip).RxBase(i) + chip.socks[i].RxMax()
    {
      hide *;
      Access();
      BasesLater(b, old(chip), chip, i);
      TxKeptTrans(b, old(chip), chip);
    }

    method GetRxBase(sn: nat) returns (base: nat)
      requires chip.Valid() && sn <= |chip.socks|
      modifies `chip, `now
      ensures chip.Valid() && old(now) <= now && Later(old(chip), chip) && base == chip.RxBase(sn)
    {
      LaterRefl(chip);
      assert chip.RxBase(0) == chip.rxBuf && TxKept(chip, chip);
      hide *;
      base := chip.rxBuf;
      for i := 0 to sn
        invariant chip.Valid() && old(now) <= now && Later(old(chip), chip) && TxKept(old(chip), chip)
        invariant sn <= |chip.socks| && base == chip.RxBase(i)
      {
        Summing(i, old(chip));
        base := base + chip.socks[i].RxMax();
      }
    }

    method GetTxBase(sn: nat) returns (base: nat)
      requires chip.Valid() && sn <= |chip.socks|
      modifies `chip, `now
      ensures chip.Valid() && old(now) <= now && Later(old(chip), chip) && TxKept(old(chip), chip)
              && base == chip.TxBase(sn)
    {
      LaterRefl(chip);
      assert chip.TxBase(0) == chip.txBuf && TxKept(chip, chip);
      hide *;
      base := chip.txBuf;
      for i := 0 to sn
        invariant chip.Valid() && old(now) <= now && Later(old(chip), chip) && TxKept(old(chip), chip)
        invariant sn <= |chip.socks| && base == chip.TxBase(i)
      {
        Summing(i, old(chip));
        base := base + chip.socks[i].TxMax();
      }
    }

    // ----- Ring access -----------------------------------------------------------------------------------

    /** WIZCHIP_READ_BUF, for a block that is `off` bytes into what is pending and does not wrap. */
    method ReadBuf(addr: nat, n: nat, ghost sn: nat, ghost off: nat) returns (buf: seq<byte>)
      requires chip.Valid() && sn < |chip.socks| && off + n <= |Pending(chip, sn)|
      requires IsBlock(addr, n, chip.RxBase(sn), chip.socks[sn].RxMax(),
                       Masked(chip.socks[sn].rxRd, chip.socks[sn].rxBits), off)
      modifies `chip, `now
      ensures chip.Valid() && old(now) <= now && Later(old(chip), chip) && buf == Pending(old(chip), sn)[off..off + n]
    {
      hide *;
      LaterRefl(chip);
      buf := [];
      for i := 0 to n
        invariant chip.Valid() && old(now) <= now && Later(old(chip), chip)
                  && buf == Pending(old(chip), sn)[off..off + i]
      {
        ghost var c := chip;
        Access();
        NextByte(old(chip), c, chip, sn, addr, n, off, i);
        buf := buf + [chip.mem[addr + i]];
      }
    }

    /** The one or two blocks of a wrapped read. */
    method ReadBlocks(mask: nat, base: nat, max: nat, len: nat, ghost sn: nat) returns (buf: seq<byte>)
      requires chip.Valid() && sn < |chip.socks| && len <= |Pending(chip, sn)|
      requires max == chip.socks[sn].RxMax() && base == chip.RxBase(sn)
               && mask == Masked(chip.socks[sn].rxRd, chip.socks[sn].rxBits)
      modifies `chip, `now
      ensures chip.Valid() && old(now) <= now && Later(old(chip), chip) && buf == Pending(old(chip), sn)[..len]
    {
      hide Later;
      hide Chip.Valid;
      hide Masked;
      ghost var c := chip;
      LaterRefl(c);
      RxStays(c, c, sn);
      BlockRule(base, max, mask, len);
      if mask + len > max {
        var size := max - mask;
        buf := ReadBuf(base + mask, size, sn, 0);
        ghost var d := chip;
        RxStays(c, d, sn);
        var tail := ReadBuf(base, len - size, sn, size);
        PendingBlocks(c, d, chip, sn, size, len);
        buf := buf + tail;
      } else {
        buf := ReadBuf(base + mask, len, sn, 0);
      }
    }

    /** The read pointer, masked, and where the receive ring lies. */
    method LocateRx(sn: nat) returns (ptr: nat, mask: nat, base: nat, max: nat)
      requires chip.Valid() && sn < |chip.socks|
      modifies `chip, `now
      ensures chip.Valid() && old(now) <= now && Later(old(chip), chip)
      ensures ptr == chip.socks[sn].rxRd && max == chip.socks[sn].RxMax() && base == chip.RxBase(sn)
      ensures mask == Masked(ptr, chip.socks[sn].rxBits)
    {
      Access();
      ptr := chip.socks[sn].rxRd;
      ghost var c := chip;
      Access();
      ghost var d := chip;
      max := chip.socks[sn].RxMax();
      mask := And(ptr, max - 1);
      base := GetRxBase(sn);
      LocatedRx(old(chip), c, d, chip, sn);
    }

    method SetRxRd(sn: nat, ptr: nat) returns (ghost mid: Chip)
      requires chip.Valid() && sn < |chip.socks|
      modifies `chip, `now
      ensures mid.Valid() && Later(old(chip), mid)
      ensures chip == mid.(socks := mid.socks[sn := mid.socks[sn].(rxRd := ptr)])
    {
      Access();
      mid := chip;
      chip := chip.(socks := chip.socks[sn := chip.socks[sn].(rxRd := ptr)]);
    }

    /** wiz_recv_data: the bytes are copied out, then the read pointer moves past them. */
    method WizRecvData(sn: nat, len: nat) returns (buf: seq<byte>, ghost mid: Chip)
      requires chip.Valid() && sn < |chip.socks| && len <= |Pending(chip, sn)|
      modifies `chip, `now
      ensures mid.Valid() && Later(old(chip), mid) && len <= |Pending(mid, sn)| && chip == Taken(mid, sn, len)
      ensures buf == Pending(mid, sn)[..len] == Pending(old(chip), sn)[..len]
      ensures chip.Valid()
    {
      var ptr, mask, base, max := LocateRx(sn);
      PendingStays(old(chip), chip, sn, len);
      ghost var c := chip;
      buf := ReadBlocks(mask, base, max, len, sn);
      ghost var d := chip;
      mid := SetRxRd(sn, Advance(ptr, len));
      TakeRule(old(chip), c, d, mid, sn, len);
    }

    /** The RECV command: the chip frees what was read. */
    method RecvCommand(sn: nat) returns (ghost end: Chip)
      requires chip.Valid() && sn < |chip.socks|
      modifies `chip, `now
      ensures end.Valid() && Later(old(chip), end) && chip == Committed(end, sn)
    {
      Access();
      end := chip;
      chip := Committed(chip, sn);
    }

    method Consume(sn: nat, len: nat) returns (buf: seq<byte>, ghost mid: Chip, ghost end: Chip)
      requires chip.Valid() && sn < |chip.socks| && len <= |Pending(chip, sn)|
      modifies `chip, `now
      ensures Consuming(old(chip), mid, end, sn, len) && chip == Committed(end, sn)
      ensures buf == Pending(old(chip), sn)[..len]
      ensures chip.Valid() && ReceivesOnly(old(chip), chip, sn)
    {
      buf, mid := WizRecvData(sn, len);
      end := RecvCommand(sn);
      ConsumingReceives(old(chip), mid, end, sn, len);
    }

    // ----- Datagrams ---------------------------------------------------------------------------------------

    /** The header of the next datagram: 8 bytes for UDP, 6 for raw IP, 2 for raw Ethernet. */
    method ReadHeader(sn: nat, mode: nat, addr0: seq<byte>, port0: nat, ghost begun: nat)
      returns (size: nat, addr: seq<byte>, port: nat)
      requires chip.Valid() && sn < |chip.socks| && InSync(chip, sn, 0, begun) && begun < |chip.socks[sn].arrived|
      requires mode == chip.socks[sn].protocol
      modifies `chip, `now
      ensures chip.Valid() && ReceivesOnly(old(chip), chip, sn)
      ensures var f := old(chip).socks[sn].arrived[begun];
              size == |f.payload| && (addr, port) == Sender(old(chip).socks[sn].protocol, f, addr0, port0)
      ensures chip.socks[sn].Lag() == 0 && InSync(chip, sn, size, begun + 1)
    {
      SyncHeader(chip, sn, begun);
      var n := if mode == MR_UDP then 8 else if mode == MR_IPRAW then 6 else 2;
      var head;
      ghost var mid, end;
      head, mid, end := Consume(sn, n);
      size, addr, port := ParseHeader(mode, head, addr0, port0, old(chip).socks[sn].arrived[begun]);
      ConsumingHeader(old(chip), mid, end, sn, begun);
    }

    /** Polling, until there are `need` bytes to read or of room. */
    method WaitFor(sn: nat, which: SizeRegister, need: nat) returns (code: int, size: nat)
      requires chip.Valid() && sn < |chip.socks| == |nonBlocking|
      requires nonBlocking[sn] || WaitEnds(chip, hw, now, sn, which, need)
      modifies `chip, `now
      ensures chip.Valid() && old(now) <= now && Later(old(chip), chip) && sn < |chip.socks|
      ensures Waited(code, size, need, nonBlocking[sn], old(chip).socks[sn], chip.socks[sn], which)
    {
      var c, t, n := chip, now, 0;
      code, size, n := Poll(c, hw, t, sn, which, need, nonBlocking[sn]);
      chip := After(c, hw, t, n);
      now := t + n;
    }

    /** Between calls: all that was read is committed, and the driver knows where in which datagram it is. */
    ghost predicate Tuned(sn: nat)
      reads this
      requires chip.Valid() && Sized() && sn < |chip.socks|
    {
      Settled(chip, sn, remained[sn], begun[sn]) && packInfo[sn] == PackInfo(remained[sn])
    }

    ghost predicate Sized()
      reads this
    {
      PerSocket(|chip.socks|, nonBlocking, remained, packInfo, begun)
    }

    /** Reads and commits `n` of the bytes that remain of a datagram. */
    method ConsumePayload(sn: nat, n: nat, ghost remained: nat, ghost begun: nat) returns (data: seq<byte>)
      requires chip.Valid() && sn < |chip.socks| && InSync(chip, sn, remained, begun) && n <= remained
      modifies `chip, `now
      ensures chip.Valid() && ReceivesOnly(old(chip), chip, sn) && Settled(chip, sn, remained - n, begun)
      ensures var rest := RestOf(old(chip).socks[sn].arrived, remained, begun);
              |rest| == remained && data == rest[..n]
    {
      SyncPayload(chip, sn, remained, begun, n);
      ghost var mid, end;
      data, mid, end := Consume(sn, n);
      ConsumingPayload(old(chip), mid, end, sn, remained, begun, n);
    }

    /** The tail of recvfrom: at most `len` of the bytes that remain. */
    method Fragment(sn: nat, len: nat) returns (ret: nat, data: seq<byte>)
      requires chip.Valid() && Sized() && sn < |chip.socks| && InSync(chip, sn, remained[sn], begun[sn])
      requires packInfo[sn] == PackInfo(remained[sn]) || packInfo[sn] == PACK_FIRST
      modifies `chip, `now, `remained, `packInfo
      ensures chip.Valid() && Sized() && ReceivesOnly(old(chip), chip, sn)
      ensures ret == Min(len, old(remained[sn])) && ret == |data|
      ensures remained == old(remained)[sn := old(remained[sn]) - ret]
      ensures packInfo == old(packInfo)[sn := PackInfo(remained[sn])]
      ensures Settled(chip, sn, remained[sn], begun[sn])
      ensures var rest := RestOf(old(chip).socks[sn].arrived, old(remained[sn]), begun[sn]);
              ret <= |rest| && data == rest[..ret]
    {
      hide InSync;
      hide Settled;
      hide RestOf;
      hide PackInfo;
      var left := remained[sn];
      var packLen := if len < left then len else left;
      data := ConsumePayload(sn, packLen, left, begun[sn]);
      assert |data| == packLen;
      NoteRest(sn, packLen);
      assert remained[sn] == left - packLen;
      ret := packLen;
    }

    /** The bookkeeping after a fragment of `n` bytes. */
    method NoteRest(sn: nat, n: nat)
      requires sn < |remained| == |packInfo| && n <= remained[sn]
      requires packInfo[sn] == PackInfo(remained[sn]) || packInfo[sn] == PACK_FIRST
      modifies `remained, `packInfo
      ensures remained == old(remained)[sn := old(remained[sn]) - n]
      ensures packInfo == old(packInfo)[sn := PackInfo(remained[sn])]
    {
      remained := remained[sn := remained[sn] - n];
      packInfo := packInfo[sn := if remained[sn] != 0 then WithRemained(packInfo[sn]) else PACK_COMPLETED];
    }

    /** All interrupts of the socket are cleared, and it is not sending. */
    method ClearAll(sn: nat)
      modifies `irq
      ensures irq.sending == old(irq.sending) - {sn} && Register(raised, irq, sn, now) == Answer(false, false)
      ensures forall i: nat :: i != sn ==> Register(raised, irq, i, now) == Register(raised, old(irq), i, now)
    {
      ClearedRegister(raised, irq, sn, now);
      ClearedRegister(raised, ClearOk(irq, sn, now), sn, now);
      irq := ClearTimeout(ClearOk(irq, sn, now), sn, now).(sending := irq.sending - {sn});
    }

    /** close(): the socket is shut and what the driver kept about it is cleared. */
    method Close(sn: nat) returns (ret: int)
      requires chip.Valid() && Sized() && sn < |chip.socks|
      modifies `chip, `now, `remained, `packInfo, `nonBlocking, `irq
      ensures chip.Valid() && old(now) <= now && Later(old(chip), chip) && Sized() && !chip.socks[sn].open
              && ret == SOCK_OK
      ensures remained == old(remained)[sn := 0] && packInfo == old(packInfo)[sn := PACK_COMPLETED]
      ensures nonBlocking == old(nonBlocking)[sn := false]
      ensures irq.sending == old(irq.sending) - {sn} && Register(raised, irq, sn, now) == Answer(false, false)
      ensures forall i: nat :: i != sn ==> Register(raised, irq, i, now) == Register(raised, old(irq), i, now)
    {
      Access();
      ghost var c := chip;
      ShutDownLater(c, sn);
      LaterTrans(old(chip), c, ShutDown(c, sn));
      chip := ShutDown(chip, sn);
      ClearAll(sn);
      nonBlocking := nonBlocking[sn := false];
      remained := remained[sn := 0];
      packInfo := packInfo[sn := PACK_COMPLETED];
      ret := SOCK_OK;
    }

    /** The head of recvfrom: the next datagram is begun, unless it is a raw frame that is too long. */
    method Begin(sn: nat, mode: nat, addr0: seq<byte>, port0: nat)
      returns (ok: bool, size: nat, addr: seq<byte>, port: nat)
      requires chip.Valid() && Sized() && sn < |chip.socks| && remained[sn] == 0
      requires InSync(chip, sn, 0, begun[sn]) && begun[sn] < |chip.socks[sn].arrived|
      requires mode == chip.socks[sn].protocol
      modifies `chip, `now, `remained, `packInfo, `nonBlocking, `irq, `begun
      ensures chip.Valid() && Sized() && ReceivesOnly(old(chip), chip, sn)
      ensures begun == old(begun)[sn := old(begun[sn]) + 1]
      ensures var f := old(chip).socks[sn].arrived[old(begun[sn])];
              size == |f.payload| && (addr, port) == Sender(old(chip).socks[sn].protocol, f, addr0, port0)
      ensures ok == !(mode == MR_MACRAW && size > 1514)
      ensures remained == old(remained)[sn := if ok then size else 0]
      ensures packInfo == old(packInfo)[sn := if ok then PACK_FIRST else PACK_COMPLETED]
      ensures ok ==> nonBlocking == old(nonBlocking) && irq == old(irq) && InSync(chip, sn, remained[sn], begun[sn])
      ensures !ok ==> !chip.socks[sn].open
    {
      hide InSync;
      hide Later;
      hide Sender;
      hide LaterAt;
      hide SendSideLater;
      size, addr, port := ReadHeader(sn, mode, addr0, port0, begun[sn]);
      begun := begun[sn := begun[sn] + 1];
      ghost var c := chip;
      ok := NoteSize(sn, mode, size);
      ReceivesLater(old(chip), c, chip, sn);
    }

    /** Notes the size of a datagram just begun; a raw frame over 1514 bytes shuts the socket. */
    method NoteSize(sn: nat, mode: nat, size: nat) returns (ok: bool)
      requires chip.Valid() && Sized() && sn < |chip.socks|
      modifies `chip, `now, `remained, `packInfo, `nonBlocking, `irq
      ensures chip.Valid() && Sized() && Later(old(chip), chip)
      ensures ok == !(mode == MR_MACRAW && size > 1514)
      ensures remained == old(remained)[sn := if ok then size else 0]
      ensures packInfo == old(packInfo)[sn := if ok then PACK_FIRST else PACK_COMPLETED]
      ensures ok ==> nonBlocking == old(nonBlocking) && irq == old(irq) && chip == old(chip)
      ensures !ok ==> !chip.socks[sn].open
    {
      LaterRefl(chip);
      remained := remained[sn := size];
      if mode == MR_MACRAW && size > 1514 {
        var _ := Close(sn);
        ok := false;
      } else {
        packInfo := packInfo[sn := PACK_FIRST];
        ok := true;
      }
    }

    /** recvfrom inside a datagram. */
    method RecvMore(sn: nat, len: nat, ghost from: (seq<byte>, nat)) returns (ret: nat, data: seq<byte>)
      requires chip.Valid() && Sized() && sn < |chip.socks| && Settled(chip, sn, remained[sn], begun[sn])
      requires packInfo[sn] == PackInfo(remained[sn]) && remained[sn] > 0 && len > 0
      modifies `chip, `now, `remained, `packInfo
      ensures chip.Valid() && Sized() && ReceivesOnly(old(chip), chip, sn) && Settled(chip, sn, remained[sn], begun[sn])
      ensures remained == old(remained)[sn := remained[sn]] && packInfo == old(packInfo)[sn := PackInfo(remained[sn])]
      ensures remained[sn] < old(remained[sn])
      ensures Returned(chip.socks[sn], len, old(remained[sn]), begun[sn], remained[sn], begun[sn], ret, data, from,
                       from)
    {
      ret, data := Fragment(sn, len);
      MoreDelivered(chip.socks[sn].protocol, old(chip).socks[sn].arrived, chip.socks[sn].arrived, len,
                    old(remained[sn]), begun[sn], data, from);
    }

    /** recvfrom between two datagrams, once there is something to read. */
    method RecvFirst(sn: nat, len: nat, mode: nat, addr0: seq<byte>, port0: nat)
      returns (ret: int, data: seq<byte>, addr: seq<byte>, port: nat)
      requires chip.Valid() && Sized() && sn < |chip.socks| && remained[sn] == 0
      requires InSync(chip, sn, 0, begun[sn]) && begun[sn] < |chip.socks[sn].arrived|
      requires mode == chip.socks[sn].protocol
      modifies `chip, `now, `remained, `packInfo, `nonBlocking, `irq, `begun
      ensures chip.Valid() && Sized() && ReceivesOnly(old(chip), chip, sn)
      ensures begun == old(begun)[sn := old(begun[sn]) + 1]
      ensures remained == old(remained)[sn := remained[sn]] && packInfo == old(packInfo)[sn := PackInfo(remained[sn])]
      ensures ret == SOCKFATAL_PACKLEN <==> TooLong(mode, old(chip).socks[sn].arrived[old(begun[sn])])
      ensures ret == SOCKFATAL_PACKLEN ==> remained[sn] == 0 && !chip.socks[sn].open && data == []
      ensures ret != SOCKFATAL_PACKLEN ==>
                ret >= 0 && nonBlocking == old(nonBlocking) && irq == old(irq)
                && Settled(chip, sn, remained[sn], begun[sn])
      ensures ret != SOCKFATAL_PACKLEN ==>
                Returned(chip.socks[sn], len, 0, old(begun[sn]), remained[sn], begun[sn], ret, data, (addr0, port0),
                         (addr, port))
    {
      hide ReceivesOnly;
      hide InSync;
      hide Returned;
      hide Settled;
      var ok, size;
      ok, size, addr, port := Begin(sn, mode, addr0, port0);
      if !ok {
        return SOCKFATAL_PACKLEN, [], addr, port;
      }
      ret, data := TakeFirst(sn, len, old(chip), old(begun[sn]), (addr0, port0));
    }

    /** The first fragment of the datagram just begun, the chip having been `b` before. */
    method TakeFirst(sn: nat, len: nat, ghost b: Chip, ghost begun0: nat, ghost from: (seq<byte>, nat))
      returns (ret: nat, data: seq<byte>)
      requires chip.Valid() && Sized() && sn < |chip.socks| && InSync(chip, sn, remained[sn], begun[sn])
      requires packInfo[sn] == PACK_FIRST
      requires b.Valid() && sn < |b.socks| && ReceivesOnly(b, chip, sn) && begun[sn] == begun0 + 1
      requires begun0 < |b.socks[sn].arrived| && remained[sn] == |b.socks[sn].arrived[begun0].payload|
      modifies `chip, `now, `remained, `packInfo
      ensures chip.Valid() && Sized() && ReceivesOnly(b, chip, sn) && Settled(chip, sn, remained[sn], begun[sn])
      ensures remained == old(remained)[sn := remained[sn]] && packInfo == old(packInfo)[sn := PackInfo(remained[sn])]
      ensures Returned(chip.socks[sn], len, 0, begun0, remained[sn], begun[sn], ret, data, from,
                       Sender(b.socks[sn].protocol, b.socks[sn].arrived[begun0], from.0, from.1))
    {
      ghost var c := chip;
      ret, data := Fragment(sn, len);
      ReceivesTrans(b, c, chip, sn);
      FirstFragment(b, c, chip, sn, len, begun0, data, from);
    }

    /** recvfrom between two datagrams. */
    method RecvNext(sn: nat, len: nat, mode: nat, addr0: seq<byte>, port0: nat)
      returns (ret: int, data: seq<byte>, addr: seq<byte>, port: nat)
      requires chip.Valid() && Sized() && sn < |chip.socks| && remained[sn] == 0
      requires Settled(chip, sn, 0, begun[sn]) && packInfo[sn] == PackInfo(0)
      requires mode == chip.socks[sn].protocol
      requires nonBlocking[sn] || WaitEnds(chip, hw, now, sn, RxRsr, 1)
      modifies `chip, `now, `remained, `packInfo, `nonBlocking, `irq, `begun
      ensures chip.Valid() && Sized() && ReceivesOnly(old(chip), chip, sn)
      ensures begun == old(begun)[sn := begun[sn]] && remained == old(remained)[sn := remained[sn]]
      ensures packInfo == old(packInfo)[sn := PackInfo(remained[sn])]
      ensures ret !in {SOCKERR_SOCKNUM, SOCKERR_SOCKMODE, SOCKERR_DATALEN}
      ensures ret != SOCKFATAL_PACKLEN ==>
                nonBlocking == old(nonBlocking) && irq == old(irq) && Settled(chip, sn, remained[sn], begun[sn])
      ensures Outcome(old(chip).socks[sn], chip.socks[sn], old(nonBlocking[sn]), len, 0, old(begun[sn]), remained[sn],
                      begun[sn],
                      ret, data, (addr0, port0), (addr, port))
    {
      hide ReceivesOnly;
      hide WaitEnds;
      hide Delivered;
      hide InSync;
      ret := AwaitDatagram(sn, begun[sn]);
      ReceivesArrived(old(chip), chip, sn);
      if ret != SOCK_OK {
        return ret, [], addr0, port0;
      }
      ghost var c := chip;
      ret, data, addr, port := RecvFirst(sn, len, mode, addr0, port0);
      ReceivesArrived(c, chip, sn);
      ReceivesTrans(old(chip), c, chip, sn);
    }

    method AwaitDatagram(sn: nat, ghost begun: nat) returns (code: int)
      requires chip.Valid() && sn < |chip.socks| == |nonBlocking| && Settled(chip, sn, 0, begun)
      requires nonBlocking[sn] || WaitEnds(chip, hw, now, sn, RxRsr, 1)
      modifies `chip, `now
      ensures chip.Valid() && ReceivesOnly(old(chip), chip, sn) && Settled(chip, sn, 0, begun)
      ensures code == SOCK_OK ==> begun < |chip.socks[sn].arrived|
      ensures code == SOCK_OK || code == SOCK_BUSY || code == SOCKERR_SOCKCLOSED
      ensures code == SOCKERR_SOCKCLOSED <==> !chip.socks[sn].open
      ensures code == SOCK_BUSY ==> nonBlocking[sn] && Seen(old(chip).socks[sn].rsr, chip.socks[sn].rsr, 0)
    {
      var size;
      code, size := WaitFor(sn, RxRsr, 1);
      AwaitRule(old(chip), chip, sn, begun);
    }

    /** An access that reads a register and leaves a wait that follows as likely to end. */
    method Peek(sn: nat, ghost which: SizeRegister, ghost need: nat) returns (k: Sock)
      requires chip.Valid() && sn < |chip.socks|
      modifies `chip, `now
      ensures chip.Valid() && old(now) <= now && Later(old(chip), chip) && |chip.socks| == |old(chip).socks|
              && k == chip.socks[sn]
      ensures WaitEnds(old(chip), hw, old(now), sn, which, need) ==> WaitEnds(chip, hw, now, sn, which, need)
    {
      Access();
      EvolveGrows(old(chip), hw(old(now)), sn);
      if WaitEnds(old(chip), hw, old(now), sn, which, need) {
        WaitEndsStill(old(chip), hw, old(now), sn, which, need);
      }
      k := chip.socks[sn];
    }

    /** recvfrom, its result said by `Outcome`. */
    method RecvAny(sn: nat, len: nat, addr0: seq<byte>, port0: nat)
      returns (ret: int, data: seq<byte>, addr: seq<byte>, port: nat)
      requires chip.Valid() && Sized() && sn != |chip.socks|
      requires sn < |chip.socks| ==> chip.socks[sn].protocol != MR_PPPOE
      requires sn < |chip.socks| && IsDatagram(chip.socks[sn].protocol) ==> Tuned(sn)
      requires sn < |chip.socks| && remained[sn] == 0 && !nonBlocking[sn] ==> WaitEnds(chip, hw, now, sn, RxRsr, 1)
      modifies `chip, `now, `remained, `packInfo, `nonBlocking, `irq, `begun
      ensures chip.Valid() && Sized()
      ensures ret == SOCKERR_SOCKNUM <==> |old(chip).socks| < sn
      ensures sn < |old(chip).socks| ==> ReceivesOnly(old(chip), chip, sn)
      ensures sn < |old(chip).socks| ==>
                (ret == SOCKERR_SOCKMODE <==> old(chip).socks[sn].protocol !in {MR_UDP, MR_IPRAW, MR_MACRAW})
      ensures sn < |old(chip).socks| ==>
                (ret == SOCKERR_DATALEN <==> IsDatagram(old(chip).socks[sn].protocol) && len == 0)
      ensures ret in {SOCKERR_SOCKNUM, SOCKERR_SOCKMODE, SOCKERR_DATALEN} ==>
                remained == old(remained) && begun == old(begun) && packInfo == old(packInfo) && data == []
      ensures ret !in {SOCKERR_SOCKNUM, SOCKERR_SOCKMODE, SOCKERR_DATALEN} ==>
                && sn < |old(chip).socks|
                && begun == old(begun)[sn := begun[sn]] && remained == old(remained)[sn := remained[sn]]
                && packInfo == old(packInfo)[sn := PackInfo(remained[sn])]
                && Outcome(old(chip).socks[sn], chip.socks[sn], old(nonBlocking[sn]), len, old(remained[sn]),
                           old(begun[sn]),
                           remained[sn], begun[sn], ret, data, (addr0, port0), (addr, port))
      ensures sn < |old(chip).socks| && IsDatagram(old(chip).socks[sn].protocol) && ret != SOCKFATAL_PACKLEN ==>
                nonBlocking == old(nonBlocking) && irq == old(irq) && Tuned(sn)
    {
      var mode;
      data, addr, port := [], addr0, port0;
      ret, mode := CheckRecv(sn, len);
      if ret != SOCK_OK {
        return;
      }
      ghost var c := chip;
      ret, data, addr, port := RecvChecked(sn, len, mode, addr0, port0);
      ReceivesTrans(old(chip), c, chip, sn);
      OutcomeSince(old(chip).socks[sn], c.socks[sn], chip.socks[sn], old(nonBlocking[sn]), len, old(remained[sn]),
                   old(begun[sn]),
                   remained[sn], begun[sn], ret, data, (addr0, port0), (addr, port));
    }

    /**
     recvfrom.  `addr0` and `port0` are what the caller's variables held.  A socket number one past the last is not
     caught by the source's check and would run over its arrays.
     */
    method RecvFrom(sn: nat, len: nat, addr0: seq<byte>, port0: nat)
      returns (ret: int, data: seq<byte>, addr: seq<byte>, port: nat)
      requires chip.Valid() && Sized() && sn != |chip.socks|
      requires sn < |chip.socks| ==> chip.socks[sn].protocol != MR_PPPOE
      requires sn < |chip.socks| && IsDatagram(chip.socks[sn].protocol) ==> Tuned(sn)
      requires sn < |chip.socks| && remained[sn] == 0 && !nonBlocking[sn] ==> WaitEnds(chip, hw, now, sn, RxRsr, 1)
      modifies `chip, `now, `remained, `packInfo, `nonBlocking, `irq, `begun
      ensures chip.Valid() && Sized()
      ensures ret == SOCKERR_SOCKNUM <==> |old(chip).socks| < sn
      ensures sn < |old(chip).socks| ==> ReceivesOnly(old(chip), chip, sn)
      ensures sn < |old(chip).socks| ==>
                (ret == SOCKERR_SOCKMODE <==> old(chip).socks[sn].protocol !in {MR_UDP, MR_IPRAW, MR_MACRAW})
      ensures sn < |old(chip).socks| ==>
                (ret == SOCKERR_DATALEN <==> IsDatagram(old(chip).socks[sn].protocol) && len == 0)
      ensures ret in {SOCKERR_SOCKNUM, SOCKERR_SOCKMODE, SOCKERR_DATALEN} ==>
                remained == old(remained) && begun == old(begun) && packInfo == old(packInfo) && data == []
      ensures ret !in {SOCKERR_SOCKNUM, SOCKERR_SOCKMODE, SOCKERR_DATALEN} ==>
                && sn < |old(chip).socks|
                && begun == old(begun)[sn := begun[sn]] && remained == old(remained)[sn := remained[sn]]
                && packInfo == old(packInfo)[sn := PackInfo(remained[sn])]
                && Outcome(old(chip).socks[sn], chip.socks[sn], old(nonBlocking[sn]), len, old(remained[sn]),
                           old(begun[sn]),
                           remained[sn], begun[sn], ret, data, (addr0, port0), (addr, port))
      ensures sn < |old(chip).socks| && IsDatagram(old(chip).socks[sn].protocol) && ret != SOCKFATAL_PACKLEN ==>
                nonBlocking == old(nonBlocking) && irq == old(irq) && Tuned(sn)
      // An over-long raw frame shuts the socket.
      ensures ret == SOCKFATAL_PACKLEN ==>
                && sn < |old(chip).socks| && old(begun[sn]) < |chip.socks[sn].arrived|
                && !chip.socks[sn].open && data == []
                && chip.socks[sn].protocol == MR_MACRAW && |chip.socks[sn].arrived[old(begun[sn])].payload| > 1514
      // A datagram is begun: its first bytes, and its sender.
      ensures ret >= 0 && sn < |old(chip).socks| && begun[sn] != old(begun[sn]) ==>
                && old(remained[sn]) == 0 && begun[sn] == old(begun[sn]) + 1 <= |chip.socks[sn].arrived|
                && var f := chip.socks[sn].arrived[old(begun[sn])];
                && ret == |data| == (if len < |f.payload| then len else |f.payload|) && data == f.payload[..ret]
                && remained[sn] == |f.payload| - ret && !(chip.socks[sn].protocol == MR_MACRAW && |f.payload| > 1514)
                && (chip.socks[sn].protocol == MR_UDP ==> addr == f.addr && port == f.port)
                && (chip.socks[sn].protocol == MR_IPRAW ==> addr == f.addr && port == port0)
                && (chip.socks[sn].protocol == MR_MACRAW ==> addr == addr0 && port == port0)
      // One is gone on with: its next bytes, and the caller's sender untouched.
      ensures sn < |old(chip).socks| && IsDatagram(old(chip).socks[sn].protocol) && len > 0 && old(remained[sn]) > 0 ==>
                && begun == old(begun) && 0 < begun[sn] <= |chip.socks[sn].arrived|
                && var p, left := chip.socks[sn].arrived[begun[sn] - 1].payload, old(remained[sn]);
                && left <= |p| && ret == |data| == (if len < left then len else left)
                && data == p[|p| - left..][..ret] && remained[sn] == left - ret && addr == addr0 && port == port0
      ensures sn < |old(chip).socks| && ret !in {SOCKERR_SOCKNUM, SOCKERR_SOCKMODE, SOCKERR_DATALEN} ==>
                packInfo[sn] == if remained[sn] > 0 then 0x81 else 0
    {
      hide ReceivesOnly;
      hide Outcome;
      hide Settled;
      hide WaitEnds;
      ret, data, addr, port := RecvAny(sn, len, addr0, port0);
      if ret in {SOCKERR_SOCKNUM, SOCKERR_SOCKMODE, SOCKERR_DATALEN} {
        return;
      }
      ReceivesArrived(old(chip), chip, sn);
      if ret == SOCKFATAL_PACKLEN {
        FatalMeans(old(chip).socks[sn], chip.socks[sn], old(nonBlocking[sn]), len, old(remained[sn]), old(begun[sn]),
                   remained[sn], begun[sn], data, (addr0, port0), (addr, port));
      } else if begun[sn] != old(begun[sn]) && ret >= 0 {
        FirstMeans(old(chip).socks[sn], chip.socks[sn], old(nonBlocking[sn]), len, old(remained[sn]), old(begun[sn]),
                   remained[sn], begun[sn], ret, data, (addr0, port0), (addr, port));
      } else if old(remained[sn]) > 0 {
        MoreMeans(old(chip).socks[sn], chip.socks[sn], old(nonBlocking[sn]), len, old(remained[sn]), old(begun[sn]),
                  remained[sn], begun[sn], ret, data, (addr0, port0), (addr, port));
      }
    }

    // ----- Many calls of recvfrom ----------------------------------------------------------------------------

    /** `calls` are the deliveries made on the socket so far. */
    ghost predicate InStep(calls: seq<Call>, sn: nat)
      reads this
    {
      && chip.Valid() && Sized() && sn < |chip.socks| && IsDatagram(chip.socks[sn].protocol) && Tuned(sn)
      && Chain(calls) && LastOf(calls).all <= chip.socks[sn].arrived
      && LastOf(calls).remained == remained[sn] && LastOf(calls).begun == begun[sn]
    }

    /**
     The deliveries end where the driver is; a datagram that was given up as over-long was begun but not delivered.
     */
    ghost predicate LeftOff(calls: seq<Call>, sn: nat, givenUp: bool)
      reads this
    {
      && sn < |chip.socks| && sn < |remained| && sn < |begun|
      && Chain(calls) && LastOf(calls).all <= chip.socks[sn].arrived && LastOf(calls).remained == remained[sn]
      && begun[sn] == LastOf(calls).begun + if givenUp then 1 else 0
    }

    /**
     Whatever state a socket of this kind and ring size is in, and whenever, a wait for something to read will end.
     */
    ghost predicate Lively(sn: nat, protocol: nat, rxBits: nat) {
      forall c: Chip, t: nat ::
        c.Valid() && sn < |c.socks| && c.socks[sn].protocol == protocol && c.socks[sn].rxBits == rxBits ==>
          WaitEnds(c, hw, t, sn, RxRsr, 1)
    }

    /**
     That is, exactly: time and again a datagram comes in that the ring can hold, or the socket is shut.  `c` is any
     chip with such a socket.
     */
    lemma LivelyExactly(c: Chip, sn: nat)
      requires c.Valid() && sn < |c.socks|
      ensures Lively(sn, c.socks[sn].protocol, c.socks[sn].rxBits) <==>
              forall t: nat :: BroughtFrom(hw, t, sn, c.socks[sn].protocol, c.socks[sn].RxMax())
    {
      var k := c.socks[sn];
      var e := c.(socks := c.socks[sn := k.(open := true, rxDone := k.rxRd, rsr := 0)]);
      assert e.socks[sn].Lag() == 0;
      BasesStay(c, sn, e.socks[sn], c.mem);
      forall d: Chip, t: nat | d.Valid() && sn < |d.socks| && d.socks[sn].protocol == k.protocol
      && d.socks[sn].rxBits == k.rxBits
        ensures WaitEnds(d, hw, t, sn, RxRsr, 1) <==>
                !Waiting(d.socks[sn]) || BroughtFrom(hw, t, sn, k.protocol, k.RxMax())
      {
        WaitEndsExactly(d, hw, t, sn);
      }
      assert Waiting(e.socks[sn]);
    }

    /** Steady traffic does, the socket never being shut. */
    lemma TrafficIsLively(c: Chip, sn: nat, f: Frame)
      requires c.Valid() && sn < |c.socks|
      requires Sendable(c.socks[sn].protocol, f) && |Encode(c.socks[sn].protocol, f)| <= c.socks[sn].RxMax()
      requires forall i: nat :: hw(i) == [Rx(sn, f)]
      ensures Lively(sn, c.socks[sn].protocol, c.socks[sn].rxBits)
    {
      LivelyExactly(c, sn);
      forall t: nat ensures BroughtFrom(hw, t, sn, c.socks[sn].protocol, c.socks[sn].RxMax()) {
        assert Brings(hw(t)[0], sn, c.socks[sn].protocol, c.socks[sn].RxMax());
        assert BringsAny(hw(t), sn, c.socks[sn].protocol, c.socks[sn].RxMax());
      }
    }

    /** One call: it delivers the next fragment, or nothing, or it shuts the socket for an over-long raw frame. */
    method RecvStep(sn: nat, len: nat, addr0: seq<byte>, port0: nat, ghost calls: seq<Call>)
      returns (r: Received, ghost more: seq<Call>)
      requires InStep(calls, sn)
      requires nonBlocking[sn] || WaitEnds(chip, hw, now, sn, RxRsr, 1)
      modifies `chip, `now, `remained, `packInfo, `nonBlocking, `irq, `begun
      ensures chip.Valid() && Sized() && sn < |chip.socks| && ReceivesOnly(old(chip), chip, sn)
      ensures chip.socks[sn].protocol == old(chip).socks[sn].protocol
      ensures LeftOff(more, sn, r.ret == SOCKFATAL_PACKLEN)
      ensures r.ret != SOCKFATAL_PACKLEN ==> InStep(more, sn) && nonBlocking == old(nonBlocking) && irq == old(irq)
      ensures IsNext(calls, more, chip.socks[sn].protocol, r, addr0, port0)
    {
      hide ReceivesOnly;
      hide Outcome;
      hide Chain;
      hide Settled;
      hide LastOf;
      var ret, data, addr, port := RecvFrom(sn, len, addr0, port0);
      ReceivesArrived(old(chip), chip, sn);
      r, more := Received(ret, data, addr, port), calls;
      assert data == [] ==> IsNext(calls, more, chip.socks[sn].protocol, r, addr0, port0);
      hide IsNext;
      hide Tuned;
      if ret != SOCKERR_DATALEN {
        more := NextCall(calls, old(chip).socks[sn], chip.socks[sn], old(nonBlocking[sn]), len, old(remained[sn]),
                         old(begun[sn]),
                         remained[sn], begun[sn], ret, data, (addr0, port0), (addr, port));
      }
    }

    /**
     Any number of calls, with any lengths: the fragments they return make up the datagrams in order of arrival, each
     under its sender and with exactly its payload; only the last may be incomplete, and what it lacks is still to come.
     It goes on from deliveries made `before`; `history` has the deliveries made up to each call.
     */
    method RecvSeries(sn: nat, lens: seq<nat>, addr0: seq<byte>, port0: nat, ghost before: seq<Call>)
      returns (results: seq<Received>, ghost history: seq<seq<Call>>)
      requires InStep(before, sn)
      requires nonBlocking[sn] || Lively(sn, chip.socks[sn].protocol, chip.socks[sn].rxBits)
      modifies `chip, `now, `remained, `packInfo, `nonBlocking, `irq, `begun
      ensures chip.Valid() && Sized() && sn < |chip.socks| && ReceivesOnly(old(chip), chip, sn)
      ensures |results| <= |lens| && |history| == |results| + 1 && history[0] == before
      ensures forall i :: 0 <= i < |results| ==>
                IsNext(history[i], history[i + 1], chip.socks[sn].protocol, results[i], addr0, port0)
      ensures !GaveUp(results) ==> |results| == |lens| && InStep(history[|results|], sn)
      ensures LeftOff(history[|results|], sn, GaveUp(results))
      ensures Reassembled(history[|results|], chip.socks[sn].arrived)
    {
      hide ReceivesOnly;
      hide IsNext;
      hide Chain;
      hide Settled;
      hide InSync;
      hide Tuned;
      hide Reassembled;
      hide LastOf;
      hide WaitEnds;
      ReceivesRefl(chip, sn);
      results, history := [], [before];
      while |results| < |lens| && !GaveUp(results)
        invariant chip.Valid() && Sized() && sn < |chip.socks| && ReceivesOnly(old(chip), chip, sn)
        invariant chip.socks[sn].protocol == old(chip).socks[sn].protocol
        invariant |results| <= |lens| && |history| == |results| + 1 && history[0] == before
        invariant forall i :: 0 <= i < |results| ==>
                    IsNext(history[i], history[i + 1], chip.socks[sn].protocol, results[i], addr0, port0)
        invariant !GaveUp(results) ==>
                    InStep(history[|results|], sn) && nonBlocking == old(nonBlocking) && irq == old(irq)
        invariant LeftOff(history[|results|], sn, GaveUp(results))
        decreases |lens| - |results|
      {
        ReceivesArrived(old(chip), chip, sn);
        ghost var c := chip;
        ghost var calls := history[|results|];
        var r;
        r, calls := RecvStep(sn, lens[|results|], addr0, port0, calls);
        ReceivesTrans(old(chip), c, chip, sn);
        results, history := results + [r], history + [calls];
      }
      ChainInOrder(history[|results|], chip.socks[sn].arrived);
    }

    method CheckRecv(sn: nat, len: nat) returns (code: int, mode: nat)
      requires chip.Valid() && Sized() && sn != |chip.socks|
      requires sn < |chip.socks| ==> chip.socks[sn].protocol != MR_PPPOE
      requires sn < |chip.socks| && IsDatagram(chip.socks[sn].protocol) ==> Tuned(sn)
      modifies `chip, `now
      ensures chip.Valid() && Sized()
      ensures code == if |chip.socks| < sn then SOCKERR_SOCKNUM
              else if !IsDatagram(old(chip).socks[sn].protocol) then SOCKERR_SOCKMODE
                      else if len == 0 then SOCKERR_DATALEN else SOCK_OK
      ensures sn < |chip.socks| ==>
                && ReceivesOnly(old(chip), chip, sn) && mode == chip.socks[sn].protocol
                && old(chip).socks[sn].rsr <= chip.socks[sn].rsr
                && (IsDatagram(chip.socks[sn].protocol) ==> Tuned(sn))
                && (WaitEnds(old(chip), hw, old(now), sn, RxRsr, 1) ==> WaitEnds(chip, hw, now, sn, RxRsr, 1))
    {
      mode := 0;
      if sn > |chip.socks| {
        return SOCKERR_SOCKNUM, mode;
      }
      var k := Peek(sn, RxRsr, 1);
      LaterReceives(old(chip), chip, sn);
      assert LaterAt(old(chip), chip, sn);
      if IsDatagram(k.protocol) {
        SyncLater(old(chip), chip, sn, remained[sn], begun[sn]);
      }
      mode := k.protocol;
      if mode != MR_UDP && mode != MR_IPRAW && mode != MR_MACRAW {
        return SOCKERR_SOCKMODE, mode;
      }
      code := if len == 0 then SOCKERR_DATALEN else SOCK_OK;
    }

    /** recvfrom with its arguments checked. */
    method RecvChecked(sn: nat, len: nat, mode: nat, addr0: seq<byte>, port0: nat)
      returns (ret: int, data: seq<byte>, addr: seq<byte>, port: nat)
      requires chip.Valid() && Sized() && sn < |chip.socks| && Tuned(sn) && len > 0
      requires mode == chip.socks[sn].protocol
      requires remained[sn] > 0 || nonBlocking[sn] || WaitEnds(chip, hw, now, sn, RxRsr, 1)
      modifies `chip, `now, `remained, `packInfo, `nonBlocking, `irq, `begun
      ensures chip.Valid() && Sized() && ReceivesOnly(old(chip), chip, sn)
      ensures begun == old(begun)[sn := begun[sn]] && remained == old(remained)[sn := remained[sn]]
      ensures packInfo == old(packInfo)[sn := PackInfo(remained[sn])]
      ensures ret !in {SOCKERR_SOCKNUM, SOCKERR_SOCKMODE, SOCKERR_DATALEN}
      ensures ret != SOCKFATAL_PACKLEN ==> nonBlocking == old(nonBlocking) && irq == old(irq) && Tuned(sn)
      ensures Outcome(old(chip).socks[sn], chip.socks[sn], old(nonBlocking[sn]), len, old(remained[sn]), old(begun[sn]),
                      remained[sn], begun[sn], ret, data, (addr0, port0), (addr, port))
    {
      hide ReceivesOnly;
      hide Outcome;
      hide Settled;
      hide WaitEnds;
      if remained[sn] == 0 {
        ret, data, addr, port := RecvNext(sn, len, mode, addr0, port0);
      } else {
        addr, port := addr0, port0;
        ret, data := RecvMore(sn, len, (addr0, port0));
        MoreIsOutcome(old(chip).socks[sn], chip.socks[sn], nonBlocking[sn], len, old(remained[sn]), remained[sn],
                      begun[sn],
                      ret, data, (addr0, port0));
      }
    }

    // ----- Sending -------------------------------------------------------------------------------------------

    /** WIZCHIP_WRITE_BUF, for a block that goes behind `off` staged bytes and does not wrap. */
    method WriteBuf(addr: nat, data: seq<byte>, ghost sn: nat, ghost off: nat)
      requires chip.Valid() && sn < |chip.socks| && Fits(chip, sn, off + |data|)
      requires IsBlock(addr, |data|, chip.TxBase(sn), chip.socks[sn].TxMax(),
                       Masked(chip.socks[sn].txWr, chip.socks[sn].txBits), off)
      modifies `chip, `now
      ensures chip.Valid() && old(now) <= now && Later(old(chip), chip) && OtherTxKept(old(chip), chip, sn)
              && Fits(chip, sn, off + |data|)
      ensures Staged(chip, sn, off + |data|) == Staged(old(chip), sn, off) + data
    {
      hide *;
      StagedFirst(chip, sn, off, data);
      for i := 0 to |data|
        invariant chip.Valid() && old(now) <= now && StagedSoFar(old(chip), chip, sn, off, i, data)
      {
        ghost var c := chip;
        Access();
        StagedNext(old(chip), c, hw(now - 1), sn, off, i, addr, data);
        chip := chip.(mem := chip.mem[addr + i := data[i]]);
      }
      StagedAll(old(chip), chip, sn, off, data);
    }

    method LocateTx(sn: nat) returns (ptr: nat, mask: nat, base: nat, max: nat)
      requires chip.Valid() && sn < |chip.socks|
      modifies `chip, `now
      ensures chip.Valid() && old(now) <= now && Later(old(chip), chip) && TxKept(old(chip), chip)
      ensures ptr == chip.socks[sn].txWr && max == chip.socks[sn].TxMax() && base == chip.TxBase(sn)
      ensures mask == Masked(ptr, chip.socks[sn].txBits)
    {
      hide TxKept;
      Access();
      ptr := chip.socks[sn].txWr;
      ghost var c := chip;
      Access();
      ghost var d := chip;
      max := chip.socks[sn].TxMax();
      mask := And(ptr, max - 1);
      base := GetTxBase(sn);
      LocatedTx(old(chip), c, d, chip, sn);
      TxKeptTrans(old(chip), c, d);
      TxKeptTrans(old(chip), d, chip);
    }

    /** The one or two blocks of a wrapped write. */
    method WriteBlocks(mask: nat, base: nat, max: nat, data: seq<byte>, ghost sn: nat)
      requires chip.Valid() && sn < |chip.socks| && Fits(chip, sn, |data|)
      requires max == chip.socks[sn].TxMax() && base == chip.TxBase(sn)
               && mask == Masked(chip.socks[sn].txWr, chip.socks[sn].txBits)
      modifies `chip, `now
      ensures chip.Valid() && old(now) <= now && Later(old(chip), chip) && OtherTxKept(old(chip), chip, sn)
      ensures Fits(chip, sn, |data|) && Staged(chip, sn, |data|) == data
    {
      if mask + |data| > max {
        WriteTwoBlocks(mask, base, max, data, sn);
      } else {
        BlockRule(base, max, mask, |data|);
        WriteBuf(base + mask, data, sn, 0);
        assert [] + data == data;
      }
    }

    method WriteTwoBlocks(mask: nat, base: nat, max: nat, data: seq<byte>, ghost sn: nat)
      requires chip.Valid() && sn < |chip.socks| && Fits(chip, sn, |data|)
      requires max == chip.socks[sn].TxMax() && base == chip.TxBase(sn)
               && mask == Masked(chip.socks[sn].txWr, chip.socks[sn].txBits)
      requires mask + |data| > max
      modifies `chip, `now
      ensures chip.Valid() && old(now) <= now && Later(old(chip), chip) && OtherTxKept(old(chip), chip, sn)
      ensures Fits(chip, sn, |data|) && Staged(chip, sn, |data|) == data
    {
      hide Later;
      hide Chip.Valid;
      hide OtherTxKept;
      ghost var c := chip;
      BlockRule(base, max, mask, |data|);
      var size := max - mask;
      var head, tail := data[..size], data[size..];
      WriteBuf(base + mask, head, sn, 0);
      ghost var d := chip;
      assert Staged(d, sn, size) == head by {
        assert Staged(c, sn, 0) == [] && [] + head == head;
      }
      TxStays(c, d, sn);
      assert size + |tail| == |data|;
      WriteBuf(base, tail, sn, size);
      LaterTrans(c, d, chip);
      OtherTxTrans(c, d, chip, sn);
      assert head + tail == data;
    }

    /** The data staged behind the write pointer. */
    method Stage(sn: nat, data: seq<byte>) returns (ptr: nat)
      requires chip.Valid() && sn < |chip.socks| && Fits(chip, sn, |data|)
      modifies `chip, `now
      ensures chip.Valid() && old(now) <= now && Later(old(chip), chip) && OtherTxKept(old(chip), chip, sn)
      ensures Fits(chip, sn, |data|) && Staged(chip, sn, |data|) == data
      ensures ptr == chip.socks[sn].txWr
    {
      hide TxKept;
      hide OtherTxKept;
      var mask, base, max;
      ptr, mask, base, max := LocateTx(sn);
      ghost var c := chip;
      TxStays(old(chip), c, sn);
      WriteBlocks(mask, base, max, data, sn);
      TxStays(c, chip, sn);
      LaterTrans(old(chip), c, chip);
      KeptThenOtherTx(old(chip), c, chip, sn);
    }

    /** The write pointer moves over the staged data, staged since the chip was `b`. */
    method MoveTxWr(sn: nat, ptr: nat, ghost b: Chip, ghost data: seq<byte>)
      requires chip.Valid() && b.Valid() && sn < |b.socks| && Later(b, chip)
      requires Fits(chip, sn, |data|) && Staged(chip, sn, |data|) == data
      requires ptr == Advance(chip.socks[sn].txWr, |data|)
      modifies `chip, `now
      ensures chip.Valid() && old(now) <= now && SendsOnly(b, chip, sn, data) && TxKept(old(chip), chip)
    {
      hide Later;
      hide SendsOnly;
      ghost var c := chip;
      Access();
      SendRule(b, c, chip, sn, data);
      chip := chip.(socks := chip.socks[sn := chip.socks[sn].(txWr := ptr)]);
    }

    /** wiz_send_data: the bytes are stored behind the write pointer, which then moves over them. */
    method WizSendData(sn: nat, data: seq<byte>)
      requires chip.Valid() && sn < |chip.socks| && Fits(chip, sn, |data|)
      modifies `chip, `now
      ensures chip.Valid() && old(now) <= now && SendsOnly(old(chip), chip, sn, data)
              && OtherTxKept(old(chip), chip, sn)
    {
      hide TxKept;
      hide OtherTxKept;
      hide Later;
      hide SendsOnly;
      var ptr := Stage(sn, data);
      ghost var c := chip;
      MoveTxWr(sn, Advance(ptr, |data|), old(chip), data);
      OtherTxThenKept(old(chip), c, chip, sn);
    }

    /** The argument and status checks of sendto. */
    method CheckSend(sn: nat, n: nat, addr: seq<byte>, port: nat, ghost need: nat) returns (code: int)
      requires chip.Valid() && sn < |chip.socks|
      modifies `chip, `now
      ensures chip.Valid() && old(now) <= now && Later(old(chip), chip) && sn < |chip.socks|
      ensures var a := ArgumentCode(old(chip).socks[sn].protocol, n, addr, port);
              code == if a == SOCK_OK && !chip.socks[sn].open then SOCKERR_SOCKSTATUS else a
      ensures WaitEnds(old(chip), hw, old(now), sn, TxFsr, need) ==> WaitEnds(chip, hw, now, sn, TxFsr, need)
    {
      var k := Peek(sn, TxFsr, need);
      ghost var c := chip;
      assert LaterAt(old(chip), c, sn);
      code := ArgumentCode(k.protocol, n, addr, port);
      if code == SOCK_OK {
        k := Peek(sn, TxFsr, need);
        LaterTrans(old(chip), c, chip);
        code := if k.open then SOCK_OK else SOCKERR_SOCKSTATUS;
      }
    }

    /** Nothing is in the register from the future, as after every method. */
    predicate IrqNow(sn: nat)
      reads this
    {
      SinceOf(irq.okSince, sn) <= now && SinceOf(irq.timeoutSince, sn) <= now
    }

    ghost predicate AnswersFrom(sn: nat, t: nat) {
      exists n: nat :: t <= n && raised(sn, n).Any()
    }

    /** Every SEND command is answered in the end. */
    ghost predicate Answers(sn: nat) {
      forall t: nat :: AnswersFrom(sn, t)
    }

    method AccessSince(ghost b: Chip)
      requires b.Valid() && chip.Valid() && Later(b, chip)
      modifies `chip, `now
      ensures chip.Valid() && Later(b, chip) && now == old(now) + 1
    {
      Access();
      LaterTrans(b, old(chip), chip);
    }

    /**
     The wait for SENDOK or TIMEOUT, which ends at the first access `at` that finds one of them; with both, SENDOK
     counts.
     */
    method PollAnswer(sn: nat, ghost b: Chip) returns (ok: bool, ghost at: nat)
      requires b.Valid() && chip.Valid() && Later(b, chip) && AnswersFrom(sn, now) && IrqNow(sn)
      modifies `chip, `now
      ensures chip.Valid() && Later(b, chip)
      ensures old(now) <= at == now - 1 && Found(raised, irq, sn, at)
      ensures forall i :: old(now) <= i < at ==> !Found(raised, irq, sn, i)
      ensures ok == Register(raised, irq, sn, at + 1).sendOk
    {
      hide Later;
      hide Chip.Valid;
      ghost var n: nat :| now <= n && raised(sn, n).Any();
      at := now;
      while true
        invariant chip.Valid() && Later(b, chip) && old(now) <= at == now <= n && IrqNow(sn)
        invariant forall i :: old(now) <= i < at ==> !Found(raised, irq, sn, i)
        decreases n - now
      {
        AccessSince(b);
        RegisterGrows(raised, irq, sn, at);
        var ir := Register(raised, irq, sn, now);
        if ir.Any() {
          return ir.sendOk, at;
        }
        at := now;
      }
    }

    /** The wait, and the bit that ended it cleared. */
    method AwaitAnswer(sn: nat, ghost b: Chip) returns (ok: bool, ghost at: nat)
      requires b.Valid() && chip.Valid() && Later(b, chip) && AnswersFrom(sn, now) && IrqNow(sn)
      modifies `chip, `now, `irq
      ensures chip.Valid() && Later(b, chip) && IrqNow(sn)
      ensures old(now) <= at < now && Found(raised, old(irq), sn, at)
      ensures forall i :: old(now) <= i < at ==> !Found(raised, old(irq), sn, i)
      ensures ok == Register(raised, old(irq), sn, at + 1).sendOk
      ensures var r := Register(raised, old(irq), sn, now);
              Register(raised, irq, sn, now) == if ok then r.(sendOk := false) else r.(timeout := false)
      ensures irq == if ok then ClearOk(old(irq), sn, now) else ClearTimeout(old(irq), sn, now)
    {
      hide Later;
      ok, at := PollAnswer(sn, b);
      AccessSince(b);
      ClearedRegister(raised, irq, sn, now);
      irq := if ok then ClearOk(irq, sn, now) else ClearTimeout(irq, sn, now);
    }

    /**
     The SEND command and the wait for its answer.  If the register was clear, the answer is the first that the chip
     raises after the command.  If a bit was left over in it, that bit is taken for the answer at once.  A chip without
     an address of its own has its subnet mask cleared meanwhile (the ARP erratum); either way it is back at the end.
     */
    method SendCommand(sn: nat) returns (ok: bool, ghost at: nat)
      requires chip.Valid() && Answers(sn) && IrqNow(sn)
      modifies `chip, `now, `irq, `subr
      ensures chip.Valid() && old(now) <= now && Later(old(chip), chip) && subr == old(subr) && IrqNow(sn)
      ensures old(now) < at < now
      ensures var left := Register(raised, old(irq), sn, old(now) + 1);
              if left.Any() then at == old(now) + 1 && (ok <==> left.sendOk || raised(sn, at).sendOk)
              else
                && raised(sn, at).Any() && ok == raised(sn, at).sendOk
                && forall i :: old(now) < i < at ==> !raised(sn, i).Any()
      ensures var r := Register(raised, old(irq), sn, now);
              Register(raised, irq, sn, now) == if ok then r.(sendOk := false) else r.(timeout := false)
    {
      hide Later;
      var saved := 0;
      if sipr == 0 {
        saved, subr := subr, 0;
      }
      Access();
      assert AnswersFrom(sn, now);
      ok, at := AwaitAnswer(sn, old(chip));
      FirstAnswer(raised, old(irq), sn, old(now) + 1, at);
      if saved != 0 {
        subr := saved;
      }
    }

    /** Waits for room for all of `data`, then queues it and has it sent. */
    method SendChecked(sn: nat, data: seq<byte>) returns (ret: int)
      requires chip.Valid() && sn < |chip.socks| == |nonBlocking| && 0 < |data| && Answers(sn) && IrqNow(sn)
      requires nonBlocking[sn] || WaitEnds(chip, hw, now, sn, TxFsr, |data|)
      modifies `chip, `now, `irq, `subr
      ensures subr == old(subr) && IrqNow(sn)
      ensures ret > 0 || ret == SOCKERR_TIMEOUT ==> SendsOnly(old(chip), chip, sn, data) && (ret > 0 ==> ret == |data|)
      ensures ret <= 0 && ret != SOCKERR_TIMEOUT ==> Later(old(chip), chip) && sn < |chip.socks|
      ensures ret <= 0 && ret != SOCKERR_TIMEOUT ==>
                || (ret == SOCKERR_SOCKCLOSED && !chip.socks[sn].open)
                || (ret == SOCK_BUSY && nonBlocking[sn] && Crowded(old(chip), chip, sn, |data|))
    {
      hide SendsOnly;
      var freesize;
      ret, freesize := WaitFor(sn, TxFsr, |data|);
      if ret == SOCK_OK {
        ghost var c := chip;
        WizSendData(sn, data);
        ghost var d := chip;
        var ok;
        ghost var at;
        ok, at := SendCommand(sn);
        SentThroughout(old(chip), c, d, chip, sn, data);
        ret := if ok then |data| else SOCKERR_TIMEOUT;
      }
    }

    /** sendto, what it did said by `SentOrNot`. */
    method SendAny(sn: nat, buf: seq<byte>, addr: seq<byte>, port: nat) returns (ret: int)
      requires chip.Valid() && sn != |chip.socks| == |nonBlocking|
      requires sn < |chip.socks| ==> Answers(sn) && IrqNow(sn)
      requires sn < |chip.socks| && !nonBlocking[sn] ==>
                 WaitEnds(chip, hw, now, sn, TxFsr, Min(|buf|, chip.socks[sn].TxMax()))
      modifies `chip, `now, `irq, `subr, `dest
      ensures ret == SOCKERR_SOCKNUM <==> |old(chip).socks| < sn
      ensures sn < |old(chip).socks| ==>
                SentOrNot(old(chip), chip, sn, nonBlocking[sn], buf,
                          ArgumentCode(old(chip).socks[sn].protocol, |buf|, addr, port), ret)
      ensures subr == old(subr)
      ensures dest == if ret > 0 || ret in {SOCKERR_TIMEOUT, SOCK_BUSY, SOCKERR_SOCKCLOSED}
                      then old(dest)[sn := (addr, port)] else old(dest)
    {
      hide SendsOnly;
      hide Crowded;
      hide WaitEnds;
      if sn > |chip.socks| {
        return SOCKERR_SOCKNUM;
      }
      ghost var need := Min(|buf|, chip.socks[sn].TxMax());
      ret := CheckSend(sn, |buf|, addr, port, need);
      if ret == SOCK_OK {
        ghost var c := chip;
        TxStays(old(chip), c, sn);
        dest := dest[sn := (addr, port)];
        var freesize := chip.socks[sn].TxMax();
        var len := if |buf| > freesize then freesize else |buf|;
        ret := SendChecked(sn, buf[..len]);
        SentSince(old(chip), c, chip, sn, buf[..len]);
        if ret == SOCK_BUSY {
          CrowdedSince(old(chip), c, chip, sn, len);
        }
      }
    }

    /** sendto: as much of `buf` as the ring can ever hold is queued and sent to the address given, or nothing is. */
    method SendTo(sn: nat, buf: seq<byte>, addr: seq<byte>, port: nat) returns (ret: int)
      requires chip.Valid() && sn != |chip.socks| == |nonBlocking|
      requires sn < |chip.socks| ==> Answers(sn) && IrqNow(sn)
      requires sn < |chip.socks| && !nonBlocking[sn] ==>
                 WaitEnds(chip, hw, now, sn, TxFsr, Min(|buf|, chip.socks[sn].TxMax()))
      modifies `chip, `now, `irq, `subr, `dest
      ensures ret == SOCKERR_SOCKNUM <==> |old(chip).socks| < sn
      ensures sn < |old(chip).socks| ==>
                SentOrNot(old(chip), chip, sn, nonBlocking[sn], buf,
                          ArgumentCode(old(chip).socks[sn].protocol, |buf|, addr, port), ret)
      // Arguments are refused in this order.
      ensures sn < |old(chip).socks| ==>
                var p := old(chip).socks[sn].protocol;
                if p !in {MR_UDP, MR_IPRAW, MR_MACRAW} then ret == SOCKERR_SOCKMODE
                else if buf == [] then ret == SOCKERR_DATALEN
                else if p != MR_MACRAW && addr == [0, 0, 0, 0] then ret == SOCKERR_IPINVALID
                else if p != MR_MACRAW && port == 0 then ret == SOCKERR_PORTZERO
                else ret > 0 || ret in {SOCK_BUSY, SOCKERR_SOCKSTATUS, SOCKERR_SOCKCLOSED, SOCKERR_TIMEOUT}
      // What is accepted is a prefix of the data, as long as the ring, queued right behind what was unsent.
      ensures ret > 0 || ret == SOCKERR_TIMEOUT ==>
                && sn < |old(chip).socks| == |chip.socks|
                && var max := old(chip).socks[sn].TxMax(); var len := if |buf| < max then |buf| else max;
                && (ret > 0 ==> ret == len) && chip.Valid()
                && chip.socks[sn].sent + Unsent(chip, sn)
                   == old(chip).socks[sn].sent + Unsent(old(chip), sn) + buf[..len]
      ensures subr == old(subr)
      ensures dest == if ret > 0 || ret in {SOCKERR_TIMEOUT, SOCK_BUSY, SOCKERR_SOCKCLOSED}
                      then old(dest)[sn := (addr, port)] else old(dest)
    {
      hide SendsOnly;
      hide Crowded;
      hide WaitEnds;
      hide SentOrNot;
      ret := SendAny(sn, buf, addr, port);
      if sn < |old(chip).socks| {
        SentMeans(old(chip), chip, sn, nonBlocking[sn], buf, addr, port, ret);
      }
    }
  }
}
