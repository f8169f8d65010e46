/**
 Which write packets never reach rxData: once nothing is owed, only packets that come in later can be copied.  Two runs
 from `start` lose one that way.
 */
module SpiDelivery {
  import opened Bytes
  import opened SpiSlave

  /** No buffer is still to be copied, and no packet still to be looked at. */
  predicate NothingOwed(s: State)
    requires s.WellFormed()
  {
    !Owed(s, 0) && !Owed(s, 1) && s.dma.DmaOut? && !s.chan[1 - s.active].irq && !s.task.Copying?
  }

  /** Outside a copy rxData is `data` or one of the packets from number `n` on, and so is all that is still to come. */
  predicate Since(s: State, n: nat, data: seq<byte>)
    requires s.WellFormed()
  {
    && n <= |s.packets|
    && (forall b :: 0 <= b < 2 && Owed(s, b) ==> s.buffer[b] in s.packets[n..])
    && (s.chan[1 - s.active].irq || !s.dma.DmaOut? ==> |s.packets| > n)
    && (s.task.Copying? || s.rxData == data || s.rxData in s.packets[n..])
  }

  lemma LaterPackets(ps: seq<seq<byte>>, p: seq<byte>, n: nat)
    requires n <= |ps|
    ensures (ps + [p])[n..] == ps[n..] + [p]
  {
  }

  /** A byte changes the active buffer and channel alone, and the packets when it is the last of one. */
  lemma ByteChanges(s: State, b: byte)
    requires s.WellFormed()
    ensures var t, o := DmaByte(s, b), 1 - s.active;
            && t.buffer[o] == s.buffer[o] && t.chan[o] == s.chan[o]
            && (t.active == s.active || t.active == o)
            && (t.packets == s.packets || t.packets == s.packets + [s.cur + [b]])
            && (Owed(t, 0) <==> Owed(s, 0)) && (Owed(t, 1) <==> Owed(s, 1))
  {
  }

  lemma ByteSince(s: State, b: byte, n: nat, data: seq<byte>)
    requires Inv(s) && ServedInTime(s) && CopiedInTime(s) && Since(s, n, data)
    ensures Since(DmaByte(s, b), n, data)
  {
    var t := DmaByte(s, b);
    ByteChanges(s, b);
    assert !Owed(s, s.active);
    assert t.active != s.active ==> |t.packets| > n && |s.cur| + 1 == SIZE;
    hide Inv;
    hide DmaByte;
    LaterPackets(s.packets, s.cur + [b], n);
    assert forall p :: p in s.packets[n..] ==> p in t.packets[n..];
  }

  lemma DmaStepSince(s: State, n: nat, data: seq<byte>)
    requires Inv(s) && !s.task.Copying? && Since(s, n, data)
    ensures Since(DmaHandlerStep(s), n, data)
  {
    var t := DmaHandlerStep(s);
    assert !s.chan[s.active].irq;
    hide Since;
    if s.dma.Rearmed? {
      LookSince(s, n, data);
    } else {
      ServeSince(s, t, n, data);
    }
  }

  /** The flags, the task and what they speak of are as before. */
  lemma ServeSince(s: State, t: State, n: nat, data: seq<byte>)
    requires s.WellFormed() && Since(s, n, data) && t.WellFormed()
    requires t == s.(chan := t.chan, memoryIdx := t.memoryIdx, dma := t.dma)
    requires t.chan[1 - t.active].irq || !t.dma.DmaOut? ==> s.chan[1 - s.active].irq || !s.dma.DmaOut?
    ensures Since(t, n, data)
  {
    assert forall b :: 0 <= b < 2 && Owed(t, b) ==> Owed(s, b);
  }

  lemma LookSince(s: State, n: nat, data: seq<byte>)
    requires Inv(s) && !s.task.Copying? && s.dma.Rearmed? && Since(s, n, data)
    ensures Since(DmaHandlerStep(s), n, data)
  {
    var t, last := DmaHandlerStep(s), |s.packets| - 1;
    LookedAt(s);
    assert s.buffer[s.memoryIdx] == s.packets[n..][last - n];
    assert t == s.(newWriteData := t.newWriteData, rxIdx := t.rxIdx, dataOk := t.dataOk, dma := DmaOut);
    hide DmaHandlerStep;
    hide Inv;
    forall b | 0 <= b < 2 && Owed(t, b) ensures t.buffer[b] in t.packets[n..] {
      LookOwes(s, b);
    }
  }

  lemma CsStepSince(s: State, high: bool, n: nat, data: seq<byte>)
    requires Inv(s) && !s.task.Copying? && Since(s, n, data)
    ensures Since(CsHandlerStep(s, high), n, data)
  {
    var t := CsHandlerStep(s, high);
    assert !s.cs.CsOut? ==> s.newWriteData;
    hide Inv;
    forall b | 0 <= b < 2 && Owed(t, b) ensures Owed(s, b) {
      CsStepOwes(s, high, b);
    }
    hide CsHandlerStep;
  }

  /** A copy that ends leaves the whole buffer. */
  lemma CopyEnds(s: State, src: nat, w: nat)
    requires Inv(s) && s.task == Copying(src, w) && w + 1 == SIZE / 4
    ensures TasksStep(s).rxData == s.buffer[src] && Owed(s, src)
  {
    CopyKeepsPrefix(s.rxData, s.buffer[src], w);
    var t := TasksStep(s);
    assert t.rxData == t.rxData[..SIZE] && s.buffer[src] == s.buffer[src][..SIZE];
  }

  lemma TaskStepSince(s: State, n: nat, data: seq<byte>)
    requires Inv(s) && s.dma.DmaOut? && s.cs.CsOut? && Since(s, n, data)
    ensures Since(TasksStep(s), n, data)
  {
    if s.task.Copying? && s.task.words + 1 == SIZE / 4 {
      CopyEnds(s, s.task.src, s.task.words);
    }
    assert s.WellFormed();
    hide Inv;
    var t := TasksStep(s);
    forall b | 0 <= b < 2 && Owed(t, b) ensures Owed(s, b) {
      TaskStepOwes(s, b);
    }
  }

  lemma StepSince(s: State, e: Event, n: nat, data: seq<byte>)
    requires Inv(s) && Enabled(s, e) && Since(s, n, data)
    ensures Since(Step(s, e), n, data)
  {
    hide Inv;
    hide Since;
    match e {
      case Byte(b) => ByteSince(s, b, n, data);
      case DmaStep => DmaStepSince(s, n, data);
      case CsStep(high) => CsStepSince(s, high, n, data);
      case TaskStep => TaskStepSince(s, n, data);
    }
  }

  lemma {:induction false} RunSince(s: State, events: seq<Event>, n: nat, data: seq<byte>)
    requires Inv(s) && AllEnabled(s, events) && Since(s, n, data)
    ensures Inv(Run(s, events)) && Since(Run(s, events), n, data)
    decreases |events|
  {
    assert s.WellFormed();
    hide Inv;
    hide Since;
    if events != [] {
      StepKeepsInv(s, events[0]);
      StepSince(s, events[0], n, data);
      RunSince(Step(s, events[0]), events[1..], n, data);
    }
  }

  /** If `events` can happen, rxData after them, outside a copy, is as it is or a packet that came in with them. */
  predicate OnlyLater(s: State, events: seq<Event>)
    requires s.WellFormed()
  {
    AllEnabled(s, events) ==>
      var t := Run(s, events);
      && |s.packets| <= |t.packets|
      && (t.task.Copying? || t.rxData == s.rxData || t.rxData in t.packets[|s.packets|..])
  }

  /** Nothing is copied twice or late: where nothing is owed, only later packets are ever copied, over every run. */
  lemma OnlyLaterPackets(s: State, events: seq<Event>)
    requires Inv(s) && NothingOwed(s)
    ensures OnlyLater(s, events)
  {
    if AllEnabled(s, events) {
      RunSince(s, events, |s.packets|, s.rxData);
    }
  }

  // ----- The end of an edge, in events ---------------------------------------------------------------

  function TaskEvents(k: nat): (events: seq<Event>)
    ensures |events| == k
  {
    seq(k, _ => TaskStep)
  }

  lemma {:induction false} TaskRun(s: State, k: nat)
    requires s.WellFormed() && s.dma.DmaOut? && s.cs.CsOut?
    ensures AllEnabled(s, TaskEvents(k)) && Run(s, TaskEvents(k)) == TaskSteps(s, k)
    decreases k
  {
    if k > 0 {
      assert TaskEvents(k)[1..] == TaskEvents(k - 1);
      TaskRun(TasksStep(s), k - 1);
    }
  }

  /** The rest of the chip-select handler, preempted or not, and the task left alone after it. */
  function EdgeEvents(s: State, before: seq<Event>, after: seq<Event>): (events: seq<Event>)
    requires s.WellFormed()
  {
    before + [CsStep(true)] + after + [CsStep(true)] + TaskEvents(StepsToEnd(EdgeToEnd(s, before, after)))
  }

  lemma RunOne(s: State, e: Event)
    requires s.WellFormed()
    ensures Run(s, [e]) == Step(s, e) && (AllEnabled(s, [e]) <==> Enabled(s, e))
  {
    hide Step;
    hide Enabled;
    var t := Step(s, e);
    assert [e][1..] == [] && Run(t, []) == t && AllEnabled(t, []);
  }

  lemma RunTwo(s: State, before: seq<Event>, e: Event)
    requires s.WellFormed()
    ensures var a := Run(s, before);
            && Run(s, before + [e]) == Step(a, e)
            && (AllEnabled(s, before + [e]) <==> AllEnabled(s, before) && Enabled(a, e))
  {
    hide *;
    RunOne(Run(s, before), e);
    RunConcat(s, before, [e]);
  }

  lemma EdgeSteps(s: State, before: seq<Event>, after: seq<Event>)
    requires Inv(s) && s.cs.Tested? && !s.task.Copying? && EdgeEnabled(s, before, after)
    ensures var a := Run(s, before); var b := CsHandlerStep(a, true); var c := Run(b, after);
            && Enabled(a, CsStep(true)) && Enabled(c, CsStep(true))
               && EdgeToEnd(s, before, after) == CsHandlerStep(c, true)
  {
    hide Run;
    hide AllEnabled;
    var a := Run(s, before);
    PreemptedRun(s, before);
    CsStepKeeps(a, true);
    PreemptedRun(CsHandlerStep(a, true), after);
  }

  lemma EdgeRun(s: State, before: seq<Event>, after: seq<Event>)
    requires Inv(s) && s.cs.Tested? && !s.task.Copying? && EdgeEnabled(s, before, after)
    ensures var t, events := EdgeToEnd(s, before, after), EdgeEvents(s, before, after);
            AllEnabled(s, events) && Run(s, events) == TaskSteps(t, StepsToEnd(t))
  {
    var t := EdgeToEnd(s, before, after);
    EdgeSteps(s, before, after);
    EdgeEnds(s, before, after);
    assert t.dma.DmaOut?;
    hide *;
    RunTwo(s, before, CsStep(true));
    RunConcat(s, before + [CsStep(true)], after);
    RunTwo(s, before + [CsStep(true)] + after, CsStep(true));
    TaskRun(t, StepsToEnd(t));
    RunConcat(s, before + [CsStep(true)] + after + [CsStep(true)], TaskEvents(StepsToEnd(t)));
  }

  lemma EndedOwesNothing(t: State, data: seq<byte>)
    requires t.WellFormed() && t.dma.DmaOut? && !t.newWriteData && !t.chan[1 - t.active].irq && |data| == SIZE
    ensures var u := t.(rxData := data, copyRx := false, task := Polling); u.WellFormed() && NothingOwed(u)
  {
  }

  lemma AloneOwesNothing(t: State)
    requires Inv(t) && t.dma.DmaOut? && !t.newWriteData && !t.chan[1 - t.active].irq
    ensures var u := TaskSteps(t, StepsToEnd(t));
            && NothingOwed(u) && u.packets == t.packets && u.rxData == Outcome(t) && !u.copyRx && !u.newWriteData
  {
    assert t.WellFormed();
    TaskAlone(t);
    hide *;
    EndedOwesNothing(t, Outcome(t));
  }

  lemma AloneSettles(t: State, u: State, more: seq<Event>)
    requires Inv(t) && t.dma.DmaOut? && !t.newWriteData && !t.chan[1 - t.active].irq
    requires Inv(u) && u == TaskSteps(t, StepsToEnd(t))
    ensures u.packets == t.packets && u.rxData == Outcome(t) && !u.copyRx && !u.newWriteData && OnlyLater(u, more)
  {
    assert t.WellFormed();
    hide *;
    AloneOwesNothing(t);
    OnlyLaterPackets(u, more);
  }

  lemma EdgeReaches(s: State, before: seq<Event>, after: seq<Event>)
    requires Inv(s) && s.cs.Tested? && !s.task.Copying? && EdgeEnabled(s, before, after)
    ensures var t, events := EdgeToEnd(s, before, after), EdgeEvents(s, before, after);
            && Inv(t) && t.dma.DmaOut? && !t.newWriteData
            && AllEnabled(s, events) && Run(s, events) == TaskSteps(t, StepsToEnd(t)) && Inv(Run(s, events))
  {
    EdgeRun(s, before, after);
    EdgeEnds(s, before, after);
    hide Inv;
    hide Run;
    hide AllEnabled;
    RunSafe(s, EdgeEvents(s, before, after));
  }

  /**
   After an edge, with no completion pending, nothing is owed any more: what the task has not copied by then, it never
   will.
   */
  lemma EdgeSettles(s: State, before: seq<Event>, after: seq<Event>, more: seq<Event>)
    requires s.WellFormed() && Inv(s) && s.cs.Tested? && !s.task.Copying? && EdgeEnabled(s, before, after)
    requires var t := EdgeToEnd(s, before, after); !t.chan[1 - t.active].irq
    ensures var events, t := EdgeEvents(s, before, after), EdgeToEnd(s, before, after); var u := Run(s, events);
            && AllEnabled(s, events) && u.packets == t.packets && u.rxData == Outcome(t)
            && !u.copyRx && !u.newWriteData && OnlyLater(u, more)
  {
    hide *;
    EdgeReaches(s, before, after);
    AloneSettles(EdgeToEnd(s, before, after), Run(s, EdgeEvents(s, before, after)), more);
  }

  // ----- Two packets that are lost -------------------------------------------------------------------

  /** The handler finds the first packet announced, and the next packet comes in before it gets on. */
  function FirstEvents(p: seq<byte>, q: seq<byte>): (events: seq<Event>) {
    BytesOf(p) + [DmaStep, DmaStep, DmaStep] + [CsStep(true)] + BytesOf(q)
  }

  lemma FirstTested(s: State, p: seq<byte>)
    requires Started(s) && IsWrite(p)
    ensures var events := BytesOf(p) + [DmaStep, DmaStep, DmaStep] + [CsStep(true)];
            && AllEnabled(s, events)
            && var t := Run(s, events);
            && Inv(t) && CopiedInTime(t) && t.cur == [] && t.packets == [p] && t.active == 1 && t.rxIdx == 0
            && t.cs.Tested? && t.task.Polling? && t.dma.DmaOut? && !t.chan[0].irq
  {
    var first := BytesOf(p) + [DmaStep, DmaStep, DmaStep];
    FirstServed(s, p);
    var a := Run(s, first);
    hide Run;
    hide AllEnabled;
    hide Inv;
    RunTwo(s, first, CsStep(true));
    CsStepKeeps(a, true);
  }

  /** So the handler can be preempted with two write packets to announce. */
  lemma PreemptionReachable(s: State, p: seq<byte>, q: seq<byte>)
    requires Started(s) && IsWrite(p) && |q| == SIZE
    ensures AllEnabled(s, FirstEvents(p, q))
    ensures var t := Run(s, FirstEvents(p, q));
            && Inv(t) && t.packets == [p, q] && t.cs.Tested? && t.task.Polling? && t.dma.DmaOut?
            && t.chan[1 - t.active].irq && t.buffer[1 - t.active] == q && t.rxIdx < 2 && t.buffer[t.rxIdx] == p
  {
    var first := BytesOf(p) + [DmaStep, DmaStep, DmaStep] + [CsStep(true)];
    FirstTested(s, p);
    var a := Run(s, first);
    assert a.cur + q == q && a.packets + [q] == [p, q];
    hide Run;
    hide AllEnabled;
    hide Inv;
    PacketArrives(a, q);
    RunConcat(s, first, BytesOf(q));
    SecondBuffer(Run(a, BytesOf(q)), p, q);
  }

  /** An edge that is preempted before it announces, and not again. */
  lemma PreemptedOnce(s: State)
    requires Inv(s) && s.cs.Tested? && s.task.Polling? && s.dma.DmaOut? && s.chan[1 - s.active].irq
    ensures var served := [DmaStep, DmaStep, DmaStep];
            && EdgeEnabled(s, served, [])
            && var t := EdgeToEnd(s, served, []);
               !t.chan[1 - t.active].irq && t.packets == s.packets && t.copyRx && t.task.Polling?
               && Outcome(t) == if IsWrite(s.buffer[1 - s.active]) then s.buffer[1 - s.active] else s.buffer[s.rxIdx]
  {
    var served := [DmaStep, DmaStep, DmaStep];
    ServeDmaLooks(s);
    ServedPreempts();
    hide ServeDma;
    hide Inv;
    hide IsWrite;
    PreemptedEdgeEnabled(s, served);
    AnnouncedAtOnce(s, served);
  }

  lemma AnnouncedAtOnce(s: State, before: seq<Event>)
    requires s.WellFormed() && Run(s, before).cs.Tested?
    ensures EdgeToEnd(s, before, []) == Run(s, before).(copyRx := true, newWriteData := false, cs := CsOut)
  {
    var b := CsHandlerStep(Run(s, before), true);
    assert Run(b, []) == b;
    hide Run;
  }

  /**
   From `start` on: the first of two write packets is never copied.  The edge that was for it gives the second one, and
   over every run from there on only packets after these two can follow.
   */
  lemma FirstIsLost(s: State, p: seq<byte>, q: seq<byte>, more: seq<Event>)
    requires Started(s) && IsWrite(p) && IsWrite(q)
    ensures AllEnabled(s, FirstEvents(p, q))
    ensures var t, served := Run(s, FirstEvents(p, q)), [DmaStep, DmaStep, DmaStep];
            && AllEnabled(t, EdgeEvents(t, served, []))
            && var u := Run(t, EdgeEvents(t, served, []));
            && u.packets == [p, q] && u.rxData == q && !u.copyRx && !u.newWriteData && OnlyLater(u, more)
  {
    PreemptionReachable(s, p, q);
    var t := Run(s, FirstEvents(p, q));
    hide Run;
    hide AllEnabled;
    hide Inv;
    hide Outcome;
    hide OnlyLater;
    PreemptedOnce(t);
    EdgeSettles(t, [DmaStep, DmaStep, DmaStep], [], more);
  }

  /** The first packet is announced and copied, but for the task's last step. */
  function FirstCopyEvents(p: seq<byte>): (events: seq<Event>) {
    BytesOf(p) + [DmaStep, DmaStep, DmaStep] + [CsStep(true), CsStep(true), CsStep(true)] + TaskEvents(SIZE / 4 + 3)
  }

  /** Before that step the second packet comes in, is looked at and has its edge. */
  function SecondEvents(p: seq<byte>, q: seq<byte>): (events: seq<Event>) {
    FirstCopyEvents(p) + (BytesOf(q) + [DmaStep, DmaStep, DmaStep]) + [CsStep(true)]
  }

  predicate FirstDone(t: State, p: seq<byte>)
    requires t.WellFormed()
  {
    && Inv(t) && CopiedInTime(t) && t.cur == [] && t.packets == [p] && t.active == 1 && t.rxData == p
    && t.task.Copied? && t.dma.DmaOut? && t.cs.CsOut? && !t.chan[0].irq
  }

  predicate BothDone(t: State, p: seq<byte>, q: seq<byte>)
    requires t.WellFormed()
  {
    && Inv(t) && t.packets == [p, q] && t.rxData == p && t.rxIdx == 1 && t.buffer[1] == q && t.newWriteData
    && t.task.Copied? && t.dma.DmaOut? && t.cs.CsOut? && !t.chan[1 - t.active].irq
  }

  /** The task's steps up to, but not including, its last. */
  lemma TaskToCopied(s: State)
    requires s.WellFormed() && s.task.Polling? && s.copyRx
    ensures TaskSteps(s, SIZE / 4 + 3) == s.(rxData := s.buffer[s.rxIdx], task := Copied)
  {
    var a := TasksStep(TasksStep(TasksStep(s)));
    assert a == s.(task := Copying(s.rxIdx, 0));
    CopyToEnd(a);
    assert a.rxData[..0] + a.buffer[s.rxIdx][0..] == a.buffer[s.rxIdx];
    assert TaskSteps(s, SIZE / 4 + 3) == TaskSteps(TasksStep(s), SIZE / 4 + 2);
    assert TaskSteps(TasksStep(s), SIZE / 4 + 2) == TaskSteps(TasksStep(TasksStep(s)), SIZE / 4 + 1);
    assert TaskSteps(TasksStep(TasksStep(s)), SIZE / 4 + 1) == TaskSteps(a, SIZE / 4);
  }

  lemma FirstCopied(s: State, p: seq<byte>)
    requires Started(s) && IsWrite(p)
    ensures AllEnabled(s, FirstCopyEvents(p)) && FirstDone(Run(s, FirstCopyEvents(p)), p)
  {
    var first := BytesOf(p) + [DmaStep, DmaStep, DmaStep] + [CsStep(true), CsStep(true), CsStep(true)];
    FirstAnnounced(s, p);
    var a := Run(s, first);
    FirstBuffer(a, p);
    hide Run;
    hide AllEnabled;
    hide Inv;
    hide TasksStep;
    TaskToCopied(a);
    TaskRun(a, SIZE / 4 + 3);
    RunConcat(s, first, TaskEvents(SIZE / 4 + 3));
    RunSafe(a, TaskEvents(SIZE / 4 + 3));
  }

  lemma SecondArrives(s: State, p: seq<byte>, q: seq<byte>)
    requires Inv(s) && CopiedInTime(s) && s.cur == [] && s.packets == [p] && s.active == 1 && |q| == SIZE
    requires s.dma.DmaOut? && !s.chan[0].irq
    ensures AllEnabled(s, BytesOf(q))
    ensures var t := Run(s, BytesOf(q));
            && Inv(t) && t.packets == [p, q] && t.active == 0 && t.buffer[1] == q && t.chan[1].irq && OnlyBytes(s, t)
  {
    assert s.cur + q == q && s.packets + [q] == [p, q];
    PacketArrives(s, q);
    hide Run;
    hide AllEnabled;
    hide Inv;
    SecondBuffer(Run(s, BytesOf(q)), p, q);
  }

  lemma SecondLooked(s: State, p: seq<byte>, q: seq<byte>)
    requires Inv(s) && s.active == 0 && s.packets == [p, q] && s.buffer[1] == q && IsWrite(q) && s.chan[1].irq
    requires s.rxData == p && s.task.Copied? && s.dma.DmaOut? && s.cs.CsOut?
    ensures AllEnabled(s, [DmaStep, DmaStep, DmaStep]) && BothDone(Run(s, [DmaStep, DmaStep, DmaStep]), p, q)
  {
    ServeDmaLooks(s);
    hide Run;
    hide AllEnabled;
    hide Inv;
    hide ServeDma;
  }

  lemma SecondServed(s: State, p: seq<byte>, q: seq<byte>)
    requires s.WellFormed() && FirstDone(s, p) && IsWrite(q)
    ensures var events := BytesOf(q) + [DmaStep, DmaStep, DmaStep];
            AllEnabled(s, events) && BothDone(Run(s, events), p, q)
  {
    SecondArrives(s, p, q);
    hide Run;
    hide AllEnabled;
    hide Inv;
    hide CopiedInTime;
    hide BothDone;
    SecondLooked(Run(s, BytesOf(q)), p, q);
    RunConcat(s, BytesOf(q), [DmaStep, DmaStep, DmaStep]);
  }

  lemma SecondTested(s: State, p: seq<byte>, q: seq<byte>)
    requires s.WellFormed() && BothDone(s, p, q)
    ensures AllEnabled(s, [CsStep(true)]) && Run(s, [CsStep(true)]) == s.(cs := Tested) && Inv(s.(cs := Tested))
  {
    assert CsHandlerStep(s, true) == s.(cs := Tested);
    CsStepKeeps(s, true);
    RunOne(s, CsStep(true));
    hide Inv;
    hide Run;
    hide AllEnabled;
  }

  lemma BothServed(s: State, p: seq<byte>, q: seq<byte>)
    requires s.WellFormed() && Started(s) && IsWrite(p) && IsWrite(q)
    ensures var events := FirstCopyEvents(p) + (BytesOf(q) + [DmaStep, DmaStep, DmaStep]);
            AllEnabled(s, events) && BothDone(Run(s, events), p, q)
  {
    hide *;
    FirstCopied(s, p);
    SecondServed(Run(s, FirstCopyEvents(p)), p, q);
    RunConcat(s, FirstCopyEvents(p), BytesOf(q) + [DmaStep, DmaStep, DmaStep]);
  }

  /** So an edge can find the task with a copy done and the flag not yet cleared. */
  lemma BusyTaskReachable(s: State, p: seq<byte>, q: seq<byte>)
    requires Started(s) && IsWrite(p) && IsWrite(q)
    ensures AllEnabled(s, SecondEvents(p, q))
    ensures var t := Run(s, SecondEvents(p, q));
            && Inv(t) && t.packets == [p, q] && t.cs.Tested? && t.task.Copied? && t.dma.DmaOut?
            && !t.chan[1 - t.active].irq && t.rxData == p && t.rxIdx < 2 && t.buffer[t.rxIdx] == q
  {
    var events := FirstCopyEvents(p) + (BytesOf(q) + [DmaStep, DmaStep, DmaStep]);
    hide Run;
    hide AllEnabled;
    hide Inv;
    BothServed(s, p, q);
    SecondTested(Run(s, events), p, q);
    RunConcat(s, events, [CsStep(true)]);
  }

  /** An edge that is not preempted. */
  lemma Undisturbed(s: State)
    requires Inv(s) && s.cs.Tested? && s.task.Copied? && s.dma.DmaOut? && !s.chan[1 - s.active].irq
    ensures EdgeEnabled(s, [], [])
    ensures var t := EdgeToEnd(s, [], []);
            !t.chan[1 - t.active].irq && t.packets == s.packets && t.task.Copied? && Outcome(t) == s.rxData
  {
    assert s.WellFormed();
    hide Inv;
    var b := CsHandlerStep(s, true);
    assert Run(s, []) == s && Run(b, []) == b && AllEnabled(s, []) && AllEnabled(b, []);
    hide Run;
    hide AllEnabled;
  }

  /**
   From `start` on: the second of two write packets is never copied.  The task clears the flag that its edge set, and
   over every run from there on only packets after these two can follow the first.
   */
  lemma SecondIsLost(s: State, p: seq<byte>, q: seq<byte>, more: seq<Event>)
    requires Started(s) && IsWrite(p) && IsWrite(q)
    ensures AllEnabled(s, SecondEvents(p, q))
    ensures var t := Run(s, SecondEvents(p, q));
            && AllEnabled(t, EdgeEvents(t, [], []))
            && var u := Run(t, EdgeEvents(t, [], []));
            && u.packets == [p, q] && u.rxData == p && !u.copyRx && !u.newWriteData && OnlyLater(u, more)
  {
    BusyTaskReachable(s, p, q);
    var t := Run(s, SecondEvents(p, q));
    hide Run;
    hide AllEnabled;
    hide Inv;
    hide Outcome;
    hide OnlyLater;
    Undisturbed(t);
    EdgeSettles(t, [], [], more);
  }
}
