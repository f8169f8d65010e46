/**
 The receive path of the SPI slave (Src/remora-hal/RP2350_SPIComms.cpp) as a concurrent step system.  Two
 chained DMA channels fill two buffers in turn; the completion interrupt, the chip-select interrupt and the
 polling task interleave with the bytes and, as their priorities allow, with each other: the completion interrupt
 (priority 64) may preempt the chip-select one (default priority), and both may preempt the task.
 */
module SpiSlave {
  import opened Bytes

  const SIZE: nat := 64                  // Config::dataBuffSize
  const PRU_READ: nat := 0x72656164
  const PRU_WRITE: nat := 0x77726974

  /** `writeAddr` is relative to the channel's own buffer; `irq` is its completion interrupt. */
  datatype Channel = Channel(writeAddr: nat, count: nat, irq: bool)

  /** Where the polling task is inside `tasks`. */
  datatype Task =
    | Polling                            // before the test of copyRXbuffer
    | Checked                            // test passed, source not yet chosen
    | Chosen(src: nat)                   // source chosen, interrupts still on
    | Copying(src: nat, words: nat)      // interrupts off, memory-to-memory DMA running
    | Copied                             // interrupts on again, copyRXbuffer not yet cleared

  /** Where the completion interrupt's handler is; bytes go on arriving inside it. */
  datatype DmaHandler =
    | DmaOut
    | Acknowledged(chan: nat)            // channel chosen and acknowledged, not yet re-armed
    | Rearmed(chan: nat)                 // re-armed, header not yet looked at

  /** Where the chip-select handler is. */
  datatype CsHandler =
    | CsOut
    | Tested                             // newWriteData was set, copyRXbuffer not yet
    | Announced                          // copyRXbuffer set, newWriteData not yet cleared

  /**
   The last four fields are history: the initial contents of rxData, the bytes of the packet now arriving, the
   packets that arrived, and how many bytes were written outside the buffer they were meant for.
   */
  datatype State = State(
    buffer: seq<seq<byte>>, chan: seq<Channel>, active: nat,
    memoryIdx: nat, rxIdx: nat, newWriteData: bool, copyRx: bool, dataOk: bool,
    dma: DmaHandler, cs: CsHandler, task: Task, rxData: seq<byte>,
    initial: seq<byte>, cur: seq<byte>, packets: seq<seq<byte>>, stray: nat)
  {
    /** Buffer sizes and index ranges. */
    predicate WellFormed() {
      && |buffer| == 2 && |buffer[0]| == SIZE && |buffer[1]| == SIZE
      && |chan| == 2 && active < 2 && memoryIdx < 2 && rxIdx < 2 && |rxData| == SIZE
      && (!dma.DmaOut? ==> dma.chan < 2)
      && (task.Chosen? || task.Copying? ==> task.src < 2)
      && (task.Copying? ==> task.words < SIZE / 4)
      && |cur| < SIZE
    }
  }

  datatype Event = Byte(b: byte) | DmaStep | CsStep(high: bool) | TaskStep

  // ----- The steps ---------------------------------------------------------------------------------

  function Header(p: seq<byte>): (r: nat)
    requires |p| == SIZE
  {
    var b0: int, b1: int, b2: int, b3: int := p[0], p[1], p[2], p[3];
    b0 + 0x100 * b1 + 0x1_0000 * b2 + 0x100_0000 * b3
  }

  /** The headers as the bytes that arrive: the text, last letter first. */
  lemma HeaderBytes(p: seq<byte>)
    requires |p| == SIZE
    ensures Header(p) == PRU_WRITE <==> p[..4] == [0x74, 0x69, 0x72, 0x77]
    ensures Header(p) == PRU_READ <==> p[..4] == [0x64, 0x61, 0x65, 0x72]
  {
    assert p[..4] == [p[0], p[1], p[2], p[3]];
  }

  function Put(p: seq<byte>, i: nat, b: byte): (r: seq<byte>)
    requires i < |p|
  {
    p[..i] + [b] + p[i + 1..]
  }

  /** A byte from the RX FIFO: the active channel stores it; at count 0 it raises its interrupt and chains. */
  function DmaByte(s: State, b: byte): (t: State)
    requires s.WellFormed()
    ensures t.WellFormed()
    ensures t == s.(buffer := t.buffer, stray := t.stray, chan := t.chan, active := t.active, cur := t.cur,
                    packets := t.packets)
  {
    var a, c := s.active, s.chan[s.active];
    var left := if c.count == 0 then 0xFFFF_FFFF else c.count - 1;
    var done := left == 0;
    var full := |s.cur| + 1 == SIZE;
    s.(buffer := if c.writeAddr < SIZE then s.buffer[a := Put(s.buffer[a], c.writeAddr, b)] else s.buffer,
       stray := if c.writeAddr < SIZE then s.stray else s.stray + 1,
       chan := s.chan[a := Channel(c.writeAddr + 1, left, c.irq || done)],
       active := if done then 1 - a else a,
       cur := if full then [] else s.cur + [b],
       packets := if full then s.packets + [s.cur + [b]] else s.packets)
  }

  /** `checkHeader` */
  function CheckHeader(s: State): (t: State)
    requires s.WellFormed()
    ensures t.WellFormed()
    ensures t == s.(dataOk := t.dataOk, newWriteData := t.newWriteData, rxIdx := t.rxIdx)
  {
    var hdr := Header(s.buffer[s.memoryIdx]);
    if hdr == PRU_WRITE then s.(dataOk := true, newWriteData := true, rxIdx := s.memoryIdx)
    else s.(dataOk := hdr == PRU_READ)
  }

  /** One step of `handleDmaRxInterrupt`. */
  function DmaHandlerStep(s: State): (t: State)
    requires s.WellFormed()
    ensures t.WellFormed()
    ensures t == s.(chan := t.chan, memoryIdx := t.memoryIdx, dma := t.dma,
                     newWriteData := t.newWriteData, rxIdx := t.rxIdx, dataOk := t.dataOk)
    ensures s.newWriteData ==> t.newWriteData
  {
    match s.dma
    case DmaOut =>
      if s.chan[0].irq then Acknowledge(s, 0) else if s.chan[1].irq then Acknowledge(s, 1) else s
    case Acknowledged(a) => s.(chan := s.chan[a := Channel(0, SIZE, s.chan[a].irq)], memoryIdx := a, dma := Rearmed(a))
    case Rearmed(_) => CheckHeader(s).(dma := DmaOut)
  }

  function Acknowledge(s: State, a: nat): (t: State)
    requires s.WellFormed() && a < 2
    ensures t.WellFormed()
  {
    s.(chan := s.chan[a := s.chan[a].(irq := false)], dma := Acknowledged(a))
  }

  /** One step of `handleNssInterrupt`; `high` is the level read from the pin on entry. */
  function CsHandlerStep(s: State, high: bool): (t: State)
    requires s.WellFormed()
    ensures t.WellFormed()
    ensures t == s.(copyRx := t.copyRx, newWriteData := t.newWriteData, cs := t.cs)
  {
    match s.cs
    case CsOut => if high && s.newWriteData then s.(cs := Tested) else s
    case Tested => s.(copyRx := true, cs := Announced)
    case Announced => s.(newWriteData := false, cs := CsOut)
  }

  /** The handlers run to their ends without interference. */
  function ServeDma(s: State): (t: State)
    requires s.WellFormed()
    ensures t.WellFormed()
  {
    DmaHandlerStep(DmaHandlerStep(DmaHandlerStep(s)))
  }

  function ServeCs(s: State, high: bool): (t: State)
    requires s.WellFormed()
    ensures t.WellFormed()
  {
    if high then CsHandlerStep(CsHandlerStep(CsHandlerStep(s, high), high), high) else s
  }

  function CopyWord(dest: seq<byte>, src: seq<byte>, w: nat): (r: seq<byte>)
    requires |dest| == SIZE && |src| == SIZE && w < SIZE / 4
    ensures |r| == SIZE
  {
    dest[..4 * w] + src[4 * w..4 * w + 4] + dest[4 * w + 4..]
  }

  /** One step of `tasks`. */
  function TasksStep(s: State): (t: State)
    requires s.WellFormed()
    ensures t.WellFormed()
    ensures t == s.(task := t.task, rxData := t.rxData, copyRx := t.copyRx)
  {
    match s.task
    case Polling => if s.copyRx then s.(task := Checked) else s
    case Checked => s.(task := Chosen(s.rxIdx))
    case Chosen(src) => s.(task := Copying(src, 0))
    case Copying(src, w) =>
      s.(rxData := CopyWord(s.rxData, s.buffer[src], w),
         task := if w + 1 == SIZE / 4 then Copied else Copying(src, w + 1))
    case Copied => s.(copyRx := false, task := Polling)
  }

  function Step(s: State, e: Event): (t: State)
    requires s.WellFormed()
    ensures t.WellFormed()
  {
    match e
    case Byte(b) => DmaByte(s, b)
    case DmaStep => DmaHandlerStep(s)
    case CsStep(high) => CsHandlerStep(s, high)
    case TaskStep => TasksStep(s)
  }

  // ----- What the environment promises ---------------------------------------------------------------

  /** Buffer `b` still has to be copied: a write packet in it was announced and its copy has not ended. */
  predicate Owed(s: State, b: nat) {
    || ((s.task.Chosen? || s.task.Copying?) && s.task.src == b)
    || (s.task.Checked? && s.rxIdx == b)
    || (s.task.Polling? && s.copyRx && s.rxIdx == b)
    || (s.newWriteData && s.rxIdx == b)
  }

  /** Each completion interrupt is served, its handler done, before the next packet completes. */
  predicate ServedInTime(s: State)
    requires s.WellFormed()
  {
    |s.cur| + 1 == SIZE ==> !s.chan[1 - s.active].irq && s.dma.DmaOut?
  }

  /** The copy from a buffer ends before the packet after next starts to fill it. */
  predicate CopiedInTime(s: State) {
    s.cur == [] ==> !Owed(s, s.active)
  }

  /** Bytes come in time; interrupts wait while the task has them disabled, and each waits for a higher priority. */
  predicate Enabled(s: State, e: Event)
    requires s.WellFormed()
  {
    match e
    case Byte(_) => ServedInTime(s) && CopiedInTime(s)
    case DmaStep => !s.task.Copying?
    case CsStep(_) => !s.task.Copying? && s.dma.DmaOut?
    case TaskStep => s.dma.DmaOut? && s.cs.CsOut?
  }

  function Run(s: State, events: seq<Event>): (t: State)
    requires s.WellFormed()
    ensures t.WellFormed()
    decreases |events|
  {
    if events == [] then s else Run(Step(s, events[0]), events[1..])
  }

  predicate AllEnabled(s: State, events: seq<Event>)
    requires s.WellFormed()
    decreases |events|
  {
    events == [] || (Enabled(s, events[0]) && AllEnabled(Step(s, events[0]), events[1..]))
  }

  /** The state `start` leaves: buffers cleared, both channels configured, channel A started. */
  predicate Started(s: State) {
    && s.WellFormed()
    && s.buffer == [seq(SIZE, _ => 0), seq(SIZE, _ => 0)]
    && s.chan == [Channel(0, SIZE, false), Channel(0, SIZE, false)] && s.active == 0
    && s.memoryIdx == 0 && s.rxIdx == 0 && !s.newWriteData && !s.copyRx
    && s.dma == DmaOut && s.cs == CsOut && s.task == Polling
    && s.initial == s.rxData && s.cur == [] && s.packets == [] && s.stray == 0
  }

  // ----- The invariant -------------------------------------------------------------------------------

  predicate IsWrite(p: seq<byte>) {
    |p| == SIZE && Header(p) == PRU_WRITE
  }

  /**
   Ping-pong: the k-th packet goes to buffer k mod 2, the channel in use is at the byte now due, the other one is
   re-armed, being re-armed or has its interrupt pending, and RxDMAmemoryIdx is the parity of the last packet served.
   */
  predicate PingPong(s: State)
    requires s.WellFormed()
  {
    var n, a, o := |s.packets|, s.active, 1 - s.active;
    && a == n % 2 && s.stray == 0
    && (forall p :: p in s.packets ==> |p| == SIZE)
    && s.chan[a] == Channel(|s.cur|, SIZE - |s.cur|, false)
    && OtherChannel(s, o)
    && s.buffer[a][..|s.cur|] == s.cur
    && (n >= 1 ==> s.buffer[o] == s.packets[n - 1])
    && (n >= 2 && s.cur == [] ==> s.buffer[a] == s.packets[n - 2])
    && (n >= 1 && s.chan[o].count == SIZE ==> s.memoryIdx == o)
    && (n >= 2 && s.chan[o].count == 0 ==> s.memoryIdx == a)
  }

  /** The channel not in use: pending, being served, or ready. */
  predicate OtherChannel(s: State, o: nat)
    requires s.WellFormed() && o < 2
  {
    match s.dma
    case DmaOut => s.chan[o] == Channel(0, SIZE, false) || (|s.packets| >= 1 && s.chan[o] == Channel(SIZE, 0, true))
    case Acknowledged(a) => a == o && |s.packets| >= 1 && s.chan[o] == Channel(SIZE, 0, false)
    case Rearmed(a) => a == o && |s.packets| >= 1 && s.chan[o] == Channel(0, SIZE, false)
  }

  /**
   A buffer that is still to be copied holds one whole write packet and is neither being filled nor waiting to be
   served.  The handlers' stages fit: the chip-select handler announces what is new, and the task copies with neither
   handler active.
   */
  predicate OwedBuffersIntact(s: State)
    requires s.WellFormed()
  {
    && (forall b :: 0 <= b < 2 && Owed(s, b) ==> s.buffer[b] in s.packets && IsWrite(s.buffer[b]))
    && (s.cur != [] ==> !Owed(s, s.active))
    && (s.chan[1 - s.active].irq || !s.dma.DmaOut? ==> !Owed(s, 1 - s.active))
    && (!s.cs.CsOut? ==> s.newWriteData)
    && (s.task.Copying? ==> s.dma.DmaOut? && s.cs.CsOut?)
  }

  /** rxData is what it was at the start or exactly one received write packet; while it is copied, a part of one. */
  predicate NotTorn(s: State)
    requires s.WellFormed()
  {
    if s.task.Copying? then s.rxData[..4 * s.task.words] == s.buffer[s.task.src][..4 * s.task.words]
    else s.rxData == s.initial || (s.rxData in s.packets && IsWrite(s.rxData))
  }

  predicate Inv(s: State) {
    s.WellFormed() && PingPong(s) && OwedBuffersIntact(s) && NotTorn(s)
  }

  lemma StartedInv(s: State)
    requires Started(s)
    ensures Inv(s)
  {
  }

  lemma ServeDmaInOne(s: State)
    requires s.WellFormed() && s.dma.DmaOut?
    ensures ServeDma(s) ==
            if s.chan[0].irq then CheckHeader(s.(chan := s.chan[0 := Channel(0, SIZE, false)], memoryIdx := 0))
            else if s.chan[1].irq then CheckHeader(s.(chan := s.chan[1 := Channel(0, SIZE, false)], memoryIdx := 1))
            else s
  {
  }

  lemma PendingPacket(s: State)
    requires Inv(s) && s.dma.DmaOut? && s.chan[1 - s.active].irq
    ensures |s.packets| > 0 && s.buffer[1 - s.active] == s.packets[|s.packets| - 1] && !s.chan[s.active].irq
  {
  }

  lemma ReportsServed(s: State, o: nat)
    requires s.WellFormed() && s.dma.DmaOut? && o < 2 && s.chan[o].irq && !s.chan[1 - o].irq
    ensures var t, p := ServeDma(s), s.buffer[o][..4];
            && t.chan == s.chan[o := Channel(0, SIZE, false)] && t.memoryIdx == o
            && t.dataOk == (p == [0x74, 0x69, 0x72, 0x77] || p == [0x64, 0x61, 0x65, 0x72])
            && t.newWriteData == (s.newWriteData || p == [0x74, 0x69, 0x72, 0x77])
            && t.rxIdx == if p == [0x74, 0x69, 0x72, 0x77] then o else s.rxIdx
  {
    ServeDmaInOne(s);
    HeaderBytes(s.buffer[o]);
    hide Header;
    hide ServeDma;
  }

  /**
   The interrupt of a packet, served: its channel is ready again, the packet is reported as good exactly if its first
   four bytes are one of the two headers, and only a write packet is taken note of.
   */
  lemma ReportsPacket(s: State)
    requires Inv(s) && s.dma.DmaOut? && s.chan[1 - s.active].irq
    ensures |s.packets| > 0
    ensures var t, o, p := ServeDma(s), 1 - s.active, s.packets[|s.packets| - 1][..4];
            && t.chan[o] == Channel(0, SIZE, false) && t.chan[s.active] == s.chan[s.active] && t.memoryIdx == o
            && t.dataOk == (p == [0x74, 0x69, 0x72, 0x77] || p == [0x64, 0x61, 0x65, 0x72])
            && t.newWriteData == (s.newWriteData || p == [0x74, 0x69, 0x72, 0x77])
            && t.rxIdx == if p == [0x74, 0x69, 0x72, 0x77] then o else s.rxIdx
  {
    PendingPacket(s);
    ReportsServed(s, 1 - s.active);
    hide ServeDma;
    hide Inv;
  }

  lemma MidByte(s: State, b: byte)
    requires Inv(s) && |s.cur| + 1 < SIZE
    ensures PingPong(DmaByte(s, b))
  {
    var t, a, i := DmaByte(s, b), s.active, |s.cur|;
    assert t.buffer[a] == s.buffer[a][..i] + [b] + s.buffer[a][i + 1..];
    assert t.buffer[a][..i + 1] == s.cur + [b] == t.cur;
    assert t.buffer[1 - a] == s.buffer[1 - a] && t.chan[1 - a] == s.chan[1 - a];
  }

  lemma LastByteFields(s: State, b: byte)
    requires Inv(s) && |s.cur| + 1 == SIZE && ServedInTime(s)
    ensures var t, a := DmaByte(s, b), s.active;
            && t.cur == [] && t.packets == s.packets + [s.cur + [b]] && t.active == 1 - a && t.stray == 0
            && t.buffer[a] == s.cur + [b] && t.buffer[1 - a] == s.buffer[1 - a]
            && t.chan[1 - a] == Channel(0, SIZE, false) && t.chan[a] == Channel(SIZE, 0, true)
  {
    var a := s.active;
    assert s.chan[1 - a] == Channel(0, SIZE, false);
    assert s.buffer[a][..|s.cur|] == s.cur && s.buffer[a][SIZE..] == [];
  }

  lemma LastByte(s: State, b: byte)
    requires Inv(s) && |s.cur| + 1 == SIZE && ServedInTime(s)
    ensures PingPong(DmaByte(s, b))
  {
    hide DmaByte;
    var t, n := DmaByte(s, b), |s.packets|;
    LastByteFields(s, b);
    assert (n + 1) % 2 == 1 - n % 2;
    assert n >= 1 ==> t.packets[n - 1] == s.packets[n - 1];
  }

  lemma ByteKeepsRest(s: State, b: byte)
    requires Inv(s) && ServedInTime(s) && CopiedInTime(s)
    ensures var t := DmaByte(s, b); OwedBuffersIntact(t) && NotTorn(t)
  {
    var t := DmaByte(s, b);
    assert forall i :: 0 <= i < 2 ==> (Owed(t, i) <==> Owed(s, i));
    assert !Owed(s, s.active);
    forall p | p in s.packets ensures p in t.packets {
    }
  }

  /** PingPong does not look at the flags, the task or rxData. */
  lemma PingPongFrame(s: State, t: State)
    requires s.WellFormed() && t.WellFormed() && PingPong(s)
    requires t.buffer == s.buffer && t.chan == s.chan && t.active == s.active && t.memoryIdx == s.memoryIdx
    requires t.cur == s.cur && t.packets == s.packets && t.stray == s.stray && t.dma == s.dma
    ensures PingPong(t)
  {
  }

  lemma AcknowledgeKeepsPingPong(s: State)
    requires s.WellFormed() && PingPong(s) && s.dma.DmaOut? && s.chan[1 - s.active].irq
    ensures DmaHandlerStep(s) == Acknowledge(s, 1 - s.active) && PingPong(DmaHandlerStep(s))
  {
    var t, o := Acknowledge(s, 1 - s.active), 1 - s.active;
    assert !s.chan[s.active].irq;
    assert s.chan[o] == Channel(SIZE, 0, true) && t.chan[o] == Channel(SIZE, 0, false);
    assert t.chan[s.active] == s.chan[s.active];
    assert t == s.(chan := t.chan, dma := Acknowledged(o));
    assert OtherChannel(t, o);
  }

  lemma RearmKeepsPingPong(s: State)
    requires s.WellFormed() && PingPong(s) && s.dma.Acknowledged?
    ensures PingPong(DmaHandlerStep(s))
  {
    var t, o := DmaHandlerStep(s), 1 - s.active;
    assert t.chan[o] == Channel(0, SIZE, false) && t.chan[s.active] == s.chan[s.active];
  }

  lemma LookKeepsPingPong(s: State)
    requires s.WellFormed() && PingPong(s) && s.dma.Rearmed?
    ensures PingPong(DmaHandlerStep(s))
  {
    var u, t := s.(dma := DmaOut), DmaHandlerStep(s);
    assert PingPong(u);
    assert t == u.(newWriteData := t.newWriteData, rxIdx := t.rxIdx, dataOk := t.dataOk);
    PingPongFrame(u, t);
  }

  lemma DmaStepKeepsPingPong(s: State)
    requires s.WellFormed() && PingPong(s)
    ensures PingPong(DmaHandlerStep(s))
  {
    match s.dma {
      case DmaOut =>
        if s.chan[1 - s.active].irq {
          AcknowledgeKeepsPingPong(s);
        } else {
          assert DmaHandlerStep(s) == s;
        }
      case Acknowledged(_) => RearmKeepsPingPong(s);
      case Rearmed(_) => LookKeepsPingPong(s);
    }
  }

  /** The flags, the task and what they speak of are as before. */
  lemma RestFrame(s: State, t: State)
    requires s.WellFormed() && OwedBuffersIntact(s) && NotTorn(s) && t.WellFormed() && !s.task.Copying?
    requires t == s.(chan := t.chan, memoryIdx := t.memoryIdx, dma := t.dma)
    requires t.chan[1 - t.active].irq || !t.dma.DmaOut? ==> s.chan[1 - s.active].irq || !s.dma.DmaOut?
    ensures OwedBuffersIntact(t) && NotTorn(t)
  {
    forall b | 0 <= b < 2 && Owed(t, b) ensures Owed(s, b) {
    }
  }

  lemma ServeKeepsRest(s: State)
    requires s.WellFormed() && PingPong(s) && OwedBuffersIntact(s) && NotTorn(s)
    requires !s.task.Copying? && !s.dma.Rearmed?
    ensures OwedBuffersIntact(DmaHandlerStep(s)) && NotTorn(DmaHandlerStep(s))
  {
    hide OwedBuffersIntact;
    hide NotTorn;
    assert !s.chan[s.active].irq;
    RestFrame(s, DmaHandlerStep(s));
  }

  /** In the stage before the header is looked at, the packet in question is the last one. */
  lemma LookedAt(s: State)
    requires s.WellFormed() && PingPong(s) && s.dma.Rearmed?
    ensures s.memoryIdx == 1 - s.active && s.buffer[s.memoryIdx] in s.packets && !s.chan[1 - s.active].irq
  {
    assert s.buffer[1 - s.active] == s.packets[|s.packets| - 1];
  }

  lemma LookOwes(s: State, b: nat)
    requires s.WellFormed() && s.dma.Rearmed? && Owed(DmaHandlerStep(s), b)
    ensures Owed(s, b) || (b == s.memoryIdx && IsWrite(s.buffer[b]))
  {
  }

  /** Only a header newly looked at is newly owed, and its packet is whole. */
  lemma LookKeepsRest(s: State)
    requires s.WellFormed() && OwedBuffersIntact(s) && NotTorn(s) && !s.task.Copying? && s.dma.Rearmed?
    requires s.memoryIdx == 1 - s.active && s.buffer[s.memoryIdx] in s.packets && !s.chan[1 - s.active].irq
    ensures OwedBuffersIntact(DmaHandlerStep(s)) && NotTorn(DmaHandlerStep(s))
  {
    var t := DmaHandlerStep(s);
    assert t == s.(newWriteData := t.newWriteData, rxIdx := t.rxIdx, dataOk := t.dataOk, dma := DmaOut);
    hide DmaHandlerStep;
    forall b | 0 <= b < 2 && Owed(t, b) ensures Owed(s, b) || (b == s.memoryIdx && IsWrite(s.buffer[b])) {
      LookOwes(s, b);
    }
  }

  lemma DmaStepKeepsRest(s: State)
    requires s.WellFormed() && PingPong(s) && OwedBuffersIntact(s) && NotTorn(s) && !s.task.Copying?
    ensures OwedBuffersIntact(DmaHandlerStep(s)) && NotTorn(DmaHandlerStep(s))
  {
    if s.dma.Rearmed? {
      hide *;
      LookedAt(s);
      LookKeepsRest(s);
    } else {
      ServeKeepsRest(s);
    }
  }

  lemma DmaStepKeeps(s: State)
    requires Inv(s) && !s.task.Copying?
    ensures Inv(DmaHandlerStep(s))
  {
    DmaStepKeepsPingPong(s);
    DmaStepKeepsRest(s);
  }

  lemma CopyKeepsPrefix(dest: seq<byte>, src: seq<byte>, w: nat)
    requires |dest| == SIZE && |src| == SIZE && w < SIZE / 4
    requires dest[..4 * w] == src[..4 * w]
    ensures CopyWord(dest, src, w)[..4 * (w + 1)] == src[..4 * (w + 1)]
  {
    assert src[..4 * (w + 1)] == src[..4 * w] + src[4 * w..4 * w + 4];
  }

  /** Nothing more is owed, and what is stays where it was. */
  lemma OwedFrame(s: State, t: State)
    requires s.WellFormed() && t.WellFormed() && OwedBuffersIntact(s)
    requires t.buffer == s.buffer && t.packets == s.packets && t.cur == s.cur && t.active == s.active
    requires t.chan == s.chan && t.dma == s.dma && forall b :: Owed(t, b) ==> Owed(s, b)
    requires (!t.cs.CsOut? ==> t.newWriteData) && (t.task.Copying? ==> t.dma.DmaOut? && t.cs.CsOut?)
    ensures OwedBuffersIntact(t)
  {
  }

  lemma TaskStepOwes(s: State, b: nat)
    requires s.WellFormed() && Owed(TasksStep(s), b)
    ensures Owed(s, b)
  {
  }

  lemma TaskStepKeepsOwed(s: State)
    requires s.WellFormed() && OwedBuffersIntact(s) && s.dma.DmaOut? && s.cs.CsOut?
    ensures OwedBuffersIntact(TasksStep(s))
  {
    hide OwedBuffersIntact;
    hide TasksStep;
    forall b | Owed(TasksStep(s), b) ensures Owed(s, b) {
      TaskStepOwes(s, b);
    }
    OwedFrame(s, TasksStep(s));
  }

  lemma CopyStepNotTorn(s: State, src: nat, w: nat)
    requires Inv(s) && s.task == Copying(src, w)
    ensures NotTorn(TasksStep(s))
  {
    var t := TasksStep(s);
    CopyKeepsPrefix(s.rxData, s.buffer[src], w);
    if w + 1 == SIZE / 4 {
      assert t.rxData == t.rxData[..4 * (w + 1)];
      assert s.buffer[src] == s.buffer[src][..4 * (w + 1)];
      assert Owed(s, src);
    }
  }

  lemma TaskStepNotTorn(s: State)
    requires Inv(s)
    ensures NotTorn(TasksStep(s))
  {
    match s.task {
      case Copying(src, w) => CopyStepNotTorn(s, src, w);
      case Chosen(src) => assert s.rxData[..0] == s.buffer[src][..0];
      case _ =>
    }
  }

  lemma ByteKeeps(s: State, b: byte)
    requires Inv(s) && ServedInTime(s) && CopiedInTime(s)
    ensures Inv(DmaByte(s, b))
  {
    if |s.cur| + 1 == SIZE {
      LastByte(s, b);
    } else {
      MidByte(s, b);
    }
    ByteKeepsRest(s, b);
  }

  lemma CsStepOwes(s: State, high: bool, b: nat)
    requires s.WellFormed() && Owed(CsHandlerStep(s, high), b)
    ensures Owed(s, b) || (s.cs.Tested? && !s.newWriteData)
  {
  }

  lemma CsStepKeepsOwed(s: State, high: bool)
    requires s.WellFormed() && OwedBuffersIntact(s) && !s.task.Copying?
    ensures OwedBuffersIntact(CsHandlerStep(s, high))
  {
    forall b | Owed(CsHandlerStep(s, high), b) ensures Owed(s, b) {
      CsStepOwes(s, high, b);
    }
    OwedFrame(s, CsHandlerStep(s, high));
  }

  lemma CsStepNotTorn(s: State, high: bool)
    requires s.WellFormed() && NotTorn(s) && !s.task.Copying?
    ensures NotTorn(CsHandlerStep(s, high))
  {
    hide CsHandlerStep;
  }

  lemma CsStepKeepsPingPong(s: State, high: bool)
    requires s.WellFormed() && PingPong(s)
    ensures PingPong(CsHandlerStep(s, high))
  {
    hide CsHandlerStep;
    hide PingPong;
    PingPongFrame(s, CsHandlerStep(s, high));
  }

  lemma CsStepKeeps(s: State, high: bool)
    requires Inv(s) && !s.task.Copying?
    ensures Inv(CsHandlerStep(s, high))
  {
    CsStepKeepsPingPong(s, high);
    CsStepKeepsOwed(s, high);
    CsStepNotTorn(s, high);
  }

  lemma TaskStepKeepsPingPong(s: State)
    requires s.WellFormed() && PingPong(s)
    ensures PingPong(TasksStep(s))
  {
    hide TasksStep;
    hide PingPong;
    PingPongFrame(s, TasksStep(s));
  }

  lemma TaskStepKeeps(s: State)
    requires Inv(s) && s.dma.DmaOut? && s.cs.CsOut?
    ensures Inv(TasksStep(s))
  {
    TaskStepKeepsPingPong(s);
    TaskStepKeepsOwed(s);
    TaskStepNotTorn(s);
  }

  lemma StepKeepsInv(s: State, e: Event)
    requires Inv(s) && Enabled(s, e)
    ensures Inv(Step(s, e))
  {
    match e {
      case Byte(b) => ByteKeeps(s, b);
      case DmaStep => DmaStepKeeps(s);
      case CsStep(high) => CsStepKeeps(s, high);
      case TaskStep => TaskStepKeeps(s);
    }
  }

  /** Every state of every run satisfies the invariant. */
  lemma {:induction false} RunSafe(s: State, events: seq<Event>)
    requires Inv(s) && AllEnabled(s, events)
    ensures Inv(Run(s, events))
    decreases |events|
  {
    if events != [] {
      StepKeepsInv(s, events[0]);
      RunSafe(Step(s, events[0]), events[1..]);
    }
  }

  lemma StepHistory(s: State, e: Event)
    requires s.WellFormed()
    ensures Step(s, e).initial == s.initial && s.packets <= Step(s, e).packets
  {
  }

  lemma {:induction false} RunHistory(s: State, events: seq<Event>)
    requires s.WellFormed()
    ensures Run(s, events).initial == s.initial && s.packets <= Run(s, events).packets
    decreases |events|
  {
    if events != [] {
      StepHistory(s, events[0]);
      RunHistory(Step(s, events[0]), events[1..]);
    }
  }

  // ----- Main results --------------------------------------------------------------------------------

  /**
   No torn commands: in every interleaving, whenever the task is not copying, rxData is what it was at the
   start or exactly one received PRU_WRITE packet.  Read packets and bad headers never reach it.
   */
  lemma NoTornCommand(s: State, events: seq<Event>)
    requires Started(s) && AllEnabled(s, events)
    ensures var t := Run(s, events);
            t.task.Copying? || t.rxData == s.rxData || (t.rxData in t.packets && IsWrite(t.rxData))
  {
    StartedInv(s);
    RunSafe(s, events);
    RunHistory(s, events);
  }

  /**
   Ping-pong safety over every run: see `PingPong`.  In particular no byte is written outside the buffer it is
   meant for, and the last packet is whole in the buffer of its parity.
   */
  lemma PingPongSafety(s: State, events: seq<Event>)
    requires s.WellFormed() && Started(s) && AllEnabled(s, events)
    ensures var t := Run(s, events); var n := |t.packets|;
            PingPong(t) && t.stray == 0 && (n >= 1 ==> t.buffer[(n - 1) % 2] == t.packets[n - 1])
  {
    hide *;
    StartedInv(s);
    RunSafe(s, events);
    LastPacketWhole(Run(s, events));
  }

  lemma LastPacketWhole(s: State)
    requires Inv(s)
    ensures PingPong(s) && s.stray == 0
    ensures var n := |s.packets|; n >= 1 ==> s.buffer[(n - 1) % 2] == s.packets[n - 1]
  {
    hide OwedBuffersIntact;
    hide NotTorn;
    var n := |s.packets|;
    assert n >= 1 ==> (n - 1) % 2 == 1 - n % 2;
  }

  /** The other channel is ready before the packet completes. */
  predicate RearmedInTime(s: State)
    requires s.WellFormed()
  {
    |s.cur| + 1 == SIZE ==> s.chan[1 - s.active] == Channel(0, SIZE, false)
  }

  /**
   Re-arm or run away: the byte after a packet stays in its buffer exactly if the other channel was re-armed in
   time, as it is when its interrupt was served in time.
   */
  lemma ServedInTimeOrRunaway(s: State, b: byte, c: byte)
    requires Inv(s) && |s.cur| + 1 == SIZE
    ensures DmaByte(DmaByte(s, b), c).stray == (if RearmedInTime(s) then 0 else 1)
    ensures ServedInTime(s) ==> RearmedInTime(s)
  {
    var t := DmaByte(s, b);
    assert t.active == 1 - s.active && t.chan[t.active] == s.chan[1 - s.active];
  }

  // ----- Delivery ------------------------------------------------------------------------------------

  function TaskSteps(s: State, k: nat): (t: State)
    requires s.WellFormed()
    ensures t.WellFormed()
    decreases k
  {
    if k == 0 then s else TaskSteps(TasksStep(s), k - 1)
  }

  lemma {:induction false} TaskStepsAdd(s: State, j: nat, k: nat)
    requires s.WellFormed()
    ensures TaskSteps(TaskSteps(s, j), k) == TaskSteps(s, j + k)
    decreases j
  {
    if j > 0 {
      TaskStepsAdd(TasksStep(s), j - 1, k);
    }
  }

  /** The copy, once begun, ends as it would in one piece. */
  lemma {:induction false} CopyToEnd(s: State)
    requires s.WellFormed() && s.task.Copying?
    ensures var w := s.task.words;
            TaskSteps(s, SIZE / 4 - w)
            == s.(rxData := s.rxData[..4 * w] + s.buffer[s.task.src][4 * w..], task := Copied)
    decreases SIZE - s.task.words
  {
    var w, src, t := s.task.words, s.task.src, TasksStep(s);
    if w + 1 == SIZE / 4 {
      assert TaskSteps(t, 0) == t;
      assert t.rxData == s.rxData[..4 * w] + s.buffer[src][4 * w..];
    } else {
      CopyToEnd(t);
      assert t.rxData[..4 * (w + 1)] + t.buffer[src][4 * (w + 1)..] == s.rxData[..4 * w] + s.buffer[src][4 * w..];
    }
  }

  /** What the task leaves in rxData if nothing interferes before it is back at its first test. */
  function Outcome(s: State): (r: seq<byte>)
    requires s.WellFormed()
  {
    match s.task
    case Polling => if s.copyRx then s.buffer[s.rxIdx] else s.rxData
    case Checked => s.buffer[s.rxIdx]
    case Chosen(src) => s.buffer[src]
    case Copying(src, w) => s.rxData[..4 * w] + s.buffer[src][4 * w..]
    case Copied => s.rxData
  }

  function StepsToEnd(s: State): (r: nat)
    requires s.WellFormed()
  {
    match s.task
    case Polling => if s.copyRx then SIZE / 4 + 4 else 0
    case Checked => SIZE / 4 + 3
    case Chosen(src) => SIZE / 4 + 2
    case Copying(src, w) => SIZE / 4 - w + 1
    case Copied => 1
  }

  lemma OneTaskStep(s: State)
    requires s.WellFormed()
    ensures TaskSteps(s, 1) == TasksStep(s)
  {
    hide TasksStep;
    assert TaskSteps(TasksStep(s), 0) == TasksStep(s);
  }

  lemma CopyAlone(s: State)
    requires s.WellFormed() && s.task.Copying?
    ensures TaskSteps(s, StepsToEnd(s)) == s.(rxData := Outcome(s), copyRx := false, task := Polling)
  {
    var k := SIZE / 4 - s.task.words;
    assert StepsToEnd(s) == k + 1;
    hide TaskSteps;
    CopyToEnd(s);
    TaskStepsAdd(s, k, 1);
    OneTaskStep(TaskSteps(s, k));
    hide Outcome;
    hide StepsToEnd;
  }

  lemma ChosenAlone(s: State)
    requires s.WellFormed() && s.task.Chosen?
    ensures TaskSteps(s, StepsToEnd(s)) == s.(rxData := Outcome(s), copyRx := false, task := Polling)
  {
    var t := TasksStep(s);
    CopyAlone(t);
    assert Outcome(t) == s.buffer[s.task.src];
    assert TaskSteps(s, StepsToEnd(s)) == TaskSteps(t, StepsToEnd(t));
  }

  lemma CheckedAlone(s: State)
    requires s.WellFormed() && s.task.Checked?
    ensures TaskSteps(s, StepsToEnd(s)) == s.(rxData := Outcome(s), copyRx := false, task := Polling)
  {
    var t := TasksStep(s);
    ChosenAlone(t);
    assert TaskSteps(s, StepsToEnd(s)) == TaskSteps(t, StepsToEnd(t));
  }

  /** The task left alone ends in `StepsToEnd` steps with `Outcome` in rxData and nothing pending. */
  lemma TaskAlone(s: State)
    requires s.WellFormed()
    ensures TaskSteps(s, StepsToEnd(s)) == s.(rxData := Outcome(s), copyRx := false, task := Polling)
  {
    match s.task {
      case Polling =>
        if s.copyRx {
          var t := TasksStep(s);
          CheckedAlone(t);
          assert TaskSteps(s, StepsToEnd(s)) == TaskSteps(t, StepsToEnd(t));
        }
      case Checked => CheckedAlone(s);
      case Chosen(_) => ChosenAlone(s);
      case Copying(_, _) => CopyAlone(s);
      case Copied => assert TaskSteps(TasksStep(s), 0) == TasksStep(s);
    }
  }

  /** What can happen inside the chip-select handler: bytes, and steps of the completion interrupt's handler. */
  predicate Preempting(events: seq<Event>) {
    forall e :: e in events ==> e.Byte? || e.DmaStep?
  }

  /** The task has chosen its source for good. */
  predicate HasChosen(task: Task) {
    task.Chosen? || task.Copying?
  }

  lemma ChosenStays(s: State, b: byte)
    requires Inv(s) && HasChosen(s.task) && CopiedInTime(s)
    ensures DmaByte(s, b).buffer[s.task.src] == s.buffer[s.task.src]
  {
    assert Owed(s, s.task.src);
  }

  lemma PreemptingStep(s: State, e: Event)
    requires Inv(s) && Enabled(s, e) && (e.Byte? || e.DmaStep?)
    ensures var t := Step(s, e);
            && t.task == s.task && t.cs == s.cs && t.copyRx == s.copyRx && t.rxData == s.rxData
            && (s.newWriteData ==> t.newWriteData)
            && (HasChosen(s.task) ==> t.buffer[s.task.src] == s.buffer[s.task.src])
  {
    hide DmaByte;
    hide DmaHandlerStep;
    if e.Byte? && HasChosen(s.task) {
      ChosenStays(s, e.b);
    }
  }

  lemma {:induction false} PreemptedRun(s: State, events: seq<Event>)
    requires Inv(s) && Preempting(events) && AllEnabled(s, events)
    ensures var t := Run(s, events);
            && Inv(t) && t.task == s.task && t.cs == s.cs && t.copyRx == s.copyRx && t.rxData == s.rxData
            && (s.newWriteData ==> t.newWriteData)
            && (HasChosen(s.task) ==> t.buffer[s.task.src] == s.buffer[s.task.src])
    decreases |events|
  {
    if events != [] {
      StepKeepsInv(s, events[0]);
      PreemptingStep(s, events[0]);
      PreemptedRun(Step(s, events[0]), events[1..]);
    }
  }

  /** The rest of the chip-select handler that has found something new, preempted before and after announcing it. */
  function EdgeToEnd(s: State, before: seq<Event>, after: seq<Event>): (t: State)
    requires s.WellFormed()
    ensures t.WellFormed()
  {
    CsHandlerStep(Run(CsHandlerStep(Run(s, before), true), after), true)
  }

  /** The handler gets on only when the interrupt of higher priority is done. */
  predicate EdgeEnabled(s: State, before: seq<Event>, after: seq<Event>)
    requires s.WellFormed()
  {
    && Preempting(before) && AllEnabled(s, before) && Run(s, before).dma.DmaOut?
    && var t := CsHandlerStep(Run(s, before), true);
    Preempting(after) && AllEnabled(t, after) && Run(t, after).dma.DmaOut?
  }

  lemma EdgeEnds(s: State, before: seq<Event>, after: seq<Event>)
    requires Inv(s) && s.cs.Tested? && !s.task.Copying? && EdgeEnabled(s, before, after)
    ensures var t := EdgeToEnd(s, before, after);
            && Inv(t) && t.cs.CsOut? && t.copyRx && !t.newWriteData && t.task == s.task && t.rxData == s.rxData
            && (s.task.Chosen? ==> t.buffer[s.task.src] == s.buffer[s.task.src])
            && t.buffer[t.rxIdx] in t.packets && IsWrite(t.buffer[t.rxIdx])
  {
    hide Run;
    hide AllEnabled;
    var a := Run(s, before);
    var b := CsHandlerStep(a, true);
    var c := Run(b, after);
    PreemptedRun(s, before);
    CsStepKeeps(a, true);
    PreemptedRun(b, after);
    CsStepKeeps(c, true);
    assert Owed(c, c.rxIdx);
  }

  /**
   The flag is cleared after interrupts are restored, so an announced packet is not always delivered.  Whatever
   preempts the chip-select handler, after it the undisturbed task copies the write packet looked at last, exactly if
   the task had not already chosen a buffer or finished a copy; and then nothing is announced any more.
   */
  lemma DeliveredUnlessBusy(s: State, before: seq<Event>, after: seq<Event>)
    requires Inv(s) && s.cs.Tested? && !s.task.Copying? && EdgeEnabled(s, before, after)
    ensures var t := EdgeToEnd(s, before, after); var u := TaskSteps(t, StepsToEnd(t));
            && !u.copyRx && !u.newWriteData && u.task.Polling?
            && u.rxData == (if s.task.Copied? then s.rxData
                            else if s.task.Chosen? then s.buffer[s.task.src]
                            else t.buffer[t.rxIdx])
            && t.buffer[t.rxIdx] in t.packets && IsWrite(t.buffer[t.rxIdx])
  {
    EdgeEnds(s, before, after);
    TaskAlone(EdgeToEnd(s, before, after));
  }

  lemma ThreeSteps(s: State, e: Event)
    requires s.WellFormed()
    ensures var a := Step(s, e); var b := Step(a, e);
            && Run(s, [e, e, e]) == Step(b, e)
            && (AllEnabled(s, [e, e, e]) <==> Enabled(s, e) && Enabled(a, e) && Enabled(b, e))
  {
    hide Step;
    hide Enabled;
    var a, es := Step(s, e), [e, e, e];
    assert es[1..] == [e, e] && es[1..][1..] == [e] && es[1..][1..][1..] == [];
    assert Run(s, es) == Run(a, [e, e]) && (AllEnabled(s, es) <==> Enabled(s, e) && AllEnabled(a, [e, e]));
    var b := Step(a, e);
    assert [e, e][1..] == [e];
    assert Run(a, [e, e]) == Run(b, [e]) && (AllEnabled(a, [e, e]) <==> Enabled(a, e) && AllEnabled(b, [e]));
    var c := Step(b, e);
    assert Run(c, []) == c && AllEnabled(c, []) && [e][1..] == [];
  }

  /** From `s` to `t` the handler served channel `o`. */
  predicate Served(s: State, t: State, o: nat)
    requires s.WellFormed() && t.WellFormed() && o < 2
  {
    && t == s.(chan := t.chan, memoryIdx := o, rxIdx := t.rxIdx, newWriteData := t.newWriteData, dataOk := t.dataOk)
    && t.rxIdx == (if IsWrite(s.buffer[o]) then o else s.rxIdx)
    && (IsWrite(s.buffer[o]) ==> t.newWriteData)
    && !t.chan[o].irq
  }

  lemma ServeDmaServes(s: State, o: nat)
    requires s.WellFormed() && s.dma.DmaOut? && o < 2 && s.chan[o].irq && !s.chan[1 - o].irq
    ensures Served(s, ServeDma(s), o)
  {
    hide Header;
    var a, b := DmaHandlerStep(s), DmaHandlerStep(DmaHandlerStep(s));
    assert a == Acknowledge(s, o);
    assert b.dma == Rearmed(o) && b.memoryIdx == o && b.buffer == s.buffer && b.rxIdx == s.rxIdx && !b.chan[o].irq;
  }

  lemma ServeDmaRuns(s: State)
    requires s.WellFormed() && !s.task.Copying?
    ensures var served := [DmaStep, DmaStep, DmaStep]; AllEnabled(s, served) && ServeDma(s) == Run(s, served)
  {
    ThreeSteps(s, DmaStep);
    hide DmaHandlerStep;
  }

  /** The handler in one piece. */
  lemma ServeDmaLooks(s: State)
    requires Inv(s) && s.dma.DmaOut? && s.chan[1 - s.active].irq && !s.task.Copying?
    ensures var t, served := ServeDma(s), [DmaStep, DmaStep, DmaStep];
            AllEnabled(s, served) && t == Run(s, served) && Inv(t) && Served(s, t, 1 - s.active)
  {
    assert !s.chan[s.active].irq;
    hide *;
    ServeDmaServes(s, 1 - s.active);
    ServeDmaRuns(s);
    RunSafe(s, [DmaStep, DmaStep, DmaStep]);
  }

  /**
   One edge for two write packets: the completion interrupt of another write packet preempts the handler between its
   test and its clearing of newWriteData.  That one is copied, the one the edge was for never is, and no second edge
   will bring it back.  With any other packet nothing is lost.
   */
  lemma PreemptedEdgeLoses(s: State)
    requires Inv(s) && s.cs.Tested? && s.dma.DmaOut? && s.chan[1 - s.active].irq && (s.task.Polling? || s.task.Checked?)
    ensures var served := [DmaStep, DmaStep, DmaStep];
            && EdgeEnabled(s, served, [])
            && var t := EdgeToEnd(s, served, []); var u := TaskSteps(t, StepsToEnd(t));
            && !u.copyRx && !u.newWriteData && s.rxIdx == s.active
            && u.rxData == (if IsWrite(s.buffer[1 - s.active]) then s.buffer[1 - s.active] else s.buffer[s.rxIdx])
  {
    var served := [DmaStep, DmaStep, DmaStep];
    assert s.rxIdx == s.active by {
      assert Owed(s, s.rxIdx);
    }
    hide *;
    ServeDmaLooks(s);
    ServedPreempts();
    PreemptedEdgeEnabled(s, served);
    DeliveredUnlessBusy(s, served, []);
  }

  lemma ServedPreempts()
    ensures Preempting([DmaStep, DmaStep, DmaStep])
  {
  }

  /** Preempted once, before it announces. */
  lemma PreemptedEdgeEnabled(s: State, before: seq<Event>)
    requires Inv(s) && s.cs.Tested? && Preempting(before) && AllEnabled(s, before) && Run(s, before).dma.DmaOut?
    ensures EdgeEnabled(s, before, [])
    ensures var t, u := Run(s, before), EdgeToEnd(s, before, []); u.rxIdx == t.rxIdx && u.buffer == t.buffer
  {
    assert s.WellFormed();
    hide Inv;
    hide DmaByte;
    hide DmaHandlerStep;
    hide Header;
    var t := CsHandlerStep(Run(s, before), true);
    assert Run(t, []) == t && AllEnabled(t, []);
  }

  // ----- Late copies ---------------------------------------------------------------------------------

  /** The task is about to copy, or is copying, the buffer that the next byte goes to. */
  predicate CopiesActive(s: State) {
    match s.task
    case Polling => s.copyRx && s.rxIdx == s.active
    case Checked => s.rxIdx == s.active
    case Chosen(src) => src == s.active
    case Copying(src, _) => src == s.active
    case Copied => false
  }

  function CopiedBytes(task: Task): (n: nat) {
    if task.Copying? then 4 * task.words else 0
  }

  lemma EarlyOutcome(s: State, b: byte)
    requires s.WellFormed() && CopiesActive(s) && |s.cur| == s.chan[s.active].writeAddr
    ensures Outcome(DmaByte(s, b)) == if |s.cur| < CopiedBytes(s.task) then Outcome(s) else Put(Outcome(s), |s.cur|, b)
  {
    hide Header;
    var t, i := DmaByte(s, b), |s.cur|;
    assert t.buffer[s.active] == Put(s.buffer[s.active], i, b);
    assert t.task == s.task && t.rxData == s.rxData && t.rxIdx == s.rxIdx && t.copyRx == s.copyRx;
    hide DmaByte;
    if s.task.Copying? {
      CopyWithByte(s.rxData, s.buffer[s.active], 4 * s.task.words, i, b);
    }
    hide Put;
  }

  lemma CopyWithByte(done: seq<byte>, src: seq<byte>, n: nat, i: nat, b: byte)
    requires n <= |done| == |src| && i < |src|
    ensures done[..n] + Put(src, i, b)[n..] ==
            if i < n then done[..n] + src[n..] else Put(done[..n] + src[n..], i, b)
  {
  }

  /**
   A byte that comes too early, exactly: it gets into the copy if and only if the copy has not yet passed its place.
   */
  lemma EarlyByte(s: State, b: byte)
    requires s.WellFormed() && PingPong(s) && CopiesActive(s)
    ensures var t := DmaByte(s, b); var u := TaskSteps(t, StepsToEnd(t));
            u.rxData == if |s.cur| < CopiedBytes(s.task) then Outcome(s) else Put(Outcome(s), |s.cur|, b)
  {
    assert |s.cur| == s.chan[s.active].writeAddr;
    hide *;
    TaskAlone(DmaByte(s, b));
    EarlyOutcome(s, b);
  }

  /** With another first byte a write packet is no write packet. */
  lemma OtherFirstByte(p: seq<byte>, b: byte)
    requires IsWrite(p) && b != p[0]
    ensures !IsWrite([b] + p[1..])
  {
    var q := [b] + p[1..];
    assert q[1] == p[1] && q[2] == p[2] && q[3] == p[3];
    var x: int, y: int := b, p[0];
    assert Header(q) - Header(p) == x - y;
  }

  /**
   Without the promise on copies a command is torn: one early byte mixes two packets in rxData, which then is no
   write packet at all.
   */
  lemma LateCopyTears(s: State, b: byte)
    requires Inv(s) && s.cur == [] && CopiesActive(s) && CopiedBytes(s.task) == 0
    ensures var t := DmaByte(s, b); var u := TaskSteps(t, StepsToEnd(t));
            && u.rxData == [b] + s.buffer[s.active][1..]
            && (b != s.buffer[s.active][0] ==> !IsWrite(u.rxData))
  {
    assert Owed(s, s.active);
    EarlyByte(s, b);
    hide TaskSteps;
    hide DmaByte;
    assert Outcome(s) == s.buffer[s.active];
    if b != s.buffer[s.active][0] {
      OtherFirstByte(s.buffer[s.active], b);
    }
  }

  /** The same byte before the edge that has the packet copied. */
  lemma LateEdgeTears(s: State, b: byte)
    requires Inv(s) && s.cur == [] && s.newWriteData && s.rxIdx == s.active && s.cs.CsOut?
    requires s.task.Polling? || s.task.Checked?
    ensures var t := ServeCs(DmaByte(s, b), true); var u := TaskSteps(t, StepsToEnd(t));
            && u.rxData == [b] + s.buffer[s.active][1..]
            && (b != s.buffer[s.active][0] ==> !IsWrite(u.rxData))
  {
    var t := ServeCs(DmaByte(s, b), true);
    TaskAlone(t);
    assert Owed(s, s.active);
    assert t.buffer[s.active] == [b] + s.buffer[s.active][1..];
    if b != s.buffer[s.active][0] {
      OtherFirstByte(s.buffer[s.active], b);
    }
  }

  lemma {:induction false} RunConcat(s: State, a: seq<Event>, b: seq<Event>)
    requires s.WellFormed()
    ensures Run(s, a + b) == Run(Run(s, a), b)
    ensures AllEnabled(s, a + b) <==> AllEnabled(s, a) && AllEnabled(Run(s, a), b)
    decreases |a|
  {
    if a == [] {
      assert a + b == b;
    } else {
      assert (a + b)[1..] == a[1..] + b;
      RunConcat(Step(s, a[0]), a[1..], b);
    }
  }

  function BytesOf(p: seq<byte>): (events: seq<Event>)
    ensures |events| == |p|
  {
    seq(|p|, i requires 0 <= i < |p| => Byte(p[i]))
  }

  /** Bytes came in, and nothing else happened. */
  predicate OnlyBytes(s: State, t: State) {
    t == s.(buffer := t.buffer, stray := t.stray, chan := t.chan, active := t.active, cur := t.cur,
            packets := t.packets)
  }

  lemma OnlyBytesTrans(s: State, t: State, u: State)
    requires OnlyBytes(s, t) && OnlyBytes(t, u)
    ensures OnlyBytes(s, u)
  {
  }

  /** A byte of a packet. */
  lemma ByteArrives(s: State, b: byte)
    requires Inv(s) && CopiedInTime(s) && s.dma.DmaOut? && !s.chan[1 - s.active].irq
    ensures Enabled(s, Byte(b))
    ensures var t := DmaByte(s, b);
            && Inv(t) && t.dma == DmaOut && OnlyBytes(s, t)
            && if |s.cur| + 1 < SIZE then
                 t.cur == s.cur + [b] && t.packets == s.packets && t.active == s.active && !t.chan[1 - t.active].irq
               else
                 && t.cur == [] && t.packets == s.packets + [s.cur + [b]]
                 && t.active == 1 - s.active && t.chan[s.active].irq
  {
    ByteKeeps(s, b);
  }

  lemma RunBytes(s: State, p: seq<byte>)
    requires s.WellFormed() && p != []
    ensures Run(s, BytesOf(p)) == Run(DmaByte(s, p[0]), BytesOf(p[1..]))
    ensures AllEnabled(s, BytesOf(p)) <==> Enabled(s, Byte(p[0])) && AllEnabled(DmaByte(s, p[0]), BytesOf(p[1..]))
  {
    hide DmaByte;
    hide Enabled;
    assert BytesOf(p)[1..] == BytesOf(p[1..]);
  }

  lemma RunNoBytes(s: State)
    requires s.WellFormed()
    ensures Run(s, BytesOf([])) == s && AllEnabled(s, BytesOf([]))
  {
  }

  /** From `s` to `t` the rest `p` of a packet came in, and nothing else happened. */
  predicate Received(s: State, p: seq<byte>, t: State)
    requires s.WellFormed()
  {
    && Inv(t) && t.cur == [] && t.packets == s.packets + [s.cur + p] && t.active == 1 - s.active
    && t.chan[s.active].irq && OnlyBytes(s, t)
  }

  lemma LastArrives(s: State, b: byte)
    requires Inv(s) && CopiedInTime(s) && s.dma.DmaOut? && !s.chan[1 - s.active].irq && |s.cur| + 1 == SIZE
    ensures AllEnabled(s, BytesOf([b])) && Received(s, [b], Run(s, BytesOf([b])))
  {
    ByteArrives(s, b);
    RunBytes(s, [b]);
    RunNoBytes(DmaByte(s, b));
  }

  lemma ReceivedMore(s: State, p: seq<byte>, t: State, u: State)
    requires s.WellFormed() && p != [] && t.WellFormed() && OnlyBytes(s, t) && t.active == s.active
    requires t.packets == s.packets && t.cur == s.cur + [p[0]] && Received(t, p[1..], u)
    ensures Received(s, p, u)
  {
    hide Inv;
    OnlyBytesTrans(s, t, u);
    assert s.cur + p == t.cur + p[1..];
  }

  /** The rest of a packet comes in, in time. */
  lemma {:induction false} PacketArrives(s: State, p: seq<byte>)
    requires Inv(s) && p != [] && |s.cur| + |p| == SIZE && CopiedInTime(s)
    requires s.dma.DmaOut? && !s.chan[1 - s.active].irq
    ensures AllEnabled(s, BytesOf(p)) && Received(s, p, Run(s, BytesOf(p)))
    decreases |p|
  {
    assert s.WellFormed();
    hide *;
    if |p| == 1 {
      assert p == [p[0]];
      LastArrives(s, p[0]);
    } else {
      var t := DmaByte(s, p[0]);
      ByteArrives(s, p[0]);
      InTimeInside(t);
      PacketArrives(t, p[1..]);
      RunBytes(s, p);
      ReceivedMore(s, p, t, Run(t, BytesOf(p[1..])));
    }
  }

  lemma InTimeInside(s: State)
    requires s.cur != []
    ensures CopiedInTime(s)
  {
  }

  /** The chip-select handler by itself. */
  lemma ServeCsAnnounces(s: State)
    requires Inv(s) && s.dma.DmaOut? && s.cs.CsOut? && s.newWriteData && !s.task.Copying?
    ensures var edge, t := [CsStep(true), CsStep(true), CsStep(true)], ServeCs(s, true);
            && AllEnabled(s, edge) && t == Run(s, edge) && Inv(t)
            && t == s.(copyRx := true, newWriteData := false)
  {
    var edge := [CsStep(true), CsStep(true), CsStep(true)];
    ThreeSteps(s, CsStep(true));
    assert ServeCs(s, true) == Run(s, edge) && AllEnabled(s, edge);
    hide *;
    RunSafe(s, edge);
  }

  /** The first packet, in buffer 0, stays there while the second comes in. */
  lemma FirstBuffer(s: State, p: seq<byte>)
    requires Inv(s) && s.packets == [p] && s.cur == []
    ensures s.active == 1 && s.buffer[0] == p
  {
    hide OwedBuffersIntact;
    hide NotTorn;
  }

  lemma SecondBuffer(s: State, p: seq<byte>, q: seq<byte>)
    requires Inv(s) && s.packets == [p, q] && s.cur == []
    ensures s.active == 0 && s.buffer[0] == p && s.buffer[1] == q
  {
    hide OwedBuffersIntact;
    hide NotTorn;
  }

  /** A first write packet comes in and is looked at. */
  lemma FirstServed(s: State, p: seq<byte>)
    requires Started(s) && IsWrite(p)
    ensures var events := BytesOf(p) + [DmaStep, DmaStep, DmaStep];
            && AllEnabled(s, events)
            && var t := Run(s, events);
            && Inv(t) && t.cur == [] && t.packets == [p] && t.active == 1 && t.rxIdx == 0 && t.newWriteData
            && t.task.Polling? && t.dma.DmaOut? && t.cs.CsOut? && !t.chan[0].irq
  {
    var served := [DmaStep, DmaStep, DmaStep];
    StartedInv(s);
    assert s.cur + p == p && s.packets + [p] == [p] && CopiedInTime(s);
    PacketArrives(s, p);
    var t := Run(s, BytesOf(p));
    assert Inv(t) && t.packets == [p] && t.cur == [] && t.chan[0].irq && t.dma.DmaOut? && t.cs.CsOut?
           && t.task.Polling?;
    hide *;
    FirstBuffer(t, p);
    ServeDmaLooks(t);
    RunConcat(s, BytesOf(p), served);
  }

  /** And it is announced. */
  lemma FirstAnnounced(s: State, p: seq<byte>)
    requires Started(s) && IsWrite(p)
    ensures var events := BytesOf(p) + [DmaStep, DmaStep, DmaStep] + [CsStep(true), CsStep(true), CsStep(true)];
            && AllEnabled(s, events)
            && var t := Run(s, events);
            && Inv(t) && CopiedInTime(t) && t.cur == [] && t.packets == [p] && t.active == 1 && t.rxIdx == 0
            && t.copyRx && !t.newWriteData && t.task.Polling? && t.dma.DmaOut? && t.cs.CsOut? && !t.chan[0].irq
  {
    var first, edge := BytesOf(p) + [DmaStep, DmaStep, DmaStep], [CsStep(true), CsStep(true), CsStep(true)];
    FirstServed(s, p);
    hide Run;
    hide AllEnabled;
    hide Inv;
    hide ServeCs;
    ServeCsAnnounces(Run(s, first));
    RunConcat(s, first, edge);
  }

  /** Such a state comes about: a write packet is announced, and the next packet comes in before the task moves. */
  lemma LateCopyReachable(s: State, p: seq<byte>, q: seq<byte>)
    requires Started(s) && IsWrite(p) && |q| == SIZE
    ensures var served, edge := [DmaStep, DmaStep, DmaStep], [CsStep(true), CsStep(true), CsStep(true)];
            var events := BytesOf(p) + served + edge + BytesOf(q);
            && AllEnabled(s, events)
            && var t := Run(s, events);
               Inv(t) && t.cur == [] && CopiesActive(t) && t.task.Polling? && t.buffer[t.active] == p
  {
    var first := BytesOf(p) + [DmaStep, DmaStep, DmaStep] + [CsStep(true), CsStep(true), CsStep(true)];
    FirstAnnounced(s, p);
    var t := Run(s, first);
    assert t.cur + q == q && t.packets + [q] == [p, q];
    hide Run;
    hide AllEnabled;
    hide Inv;
    PacketArrives(t, q);
    RunConcat(s, first, BytesOf(q));
    SecondBuffer(Run(t, BytesOf(q)), p, q);
  }
}
