/**
 The hardware side of the two SPI masters: a transmit FIFO, one shift register and a receive FIFO.  The
 software decides when to push and pop; the hardware decides how many micro-steps happen in between.
 */
module SpiEngine {
  import opened Bytes

  /**
   `wire` is everything shifted out so far, `written` everything the software put in, `drained` everything it
   took out.  `faults` counts pushes into a full FIFO, pops from an empty one and received bytes dropped for
   want of room.  With `stalls` the clock is held while the receive FIFO is full (BCM2835); without it the
   byte is lost (DesignWare).
   */
  datatype Engine = Engine(depth: nat, stalls: bool, tx: seq<byte>, shift: seq<byte>, rx: seq<byte>,
                           wire: seq<byte>, written: seq<byte>, drained: seq<byte>, faults: nat)

  /** One hardware micro-step; `slave(k)` is the reply to the k-th byte on the wire. */
  function Step(e: Engine, slave: nat -> byte): (r: Engine) {
    if e.shift != [] then
      if |e.rx| < e.depth then
        e.(shift := [], wire := e.wire + e.shift, rx := e.rx + [slave(|e.wire|)])
      else if e.stalls then e
      else e.(shift := [], wire := e.wire + e.shift, faults := e.faults + 1)
    else if e.tx != [] then
      e.(shift := [e.tx[0]], tx := e.tx[1..])
    else e
  }

  function Run(e: Engine, slave: nat -> byte, steps: nat): (r: Engine)
    decreases steps
  {
    if steps == 0 then e else Run(Step(e, slave), slave, steps - 1)
  }

  /** Writing the data register. */
  function Push(e: Engine, b: byte): (r: Engine) {
    if |e.tx| < e.depth then e.(tx := e.tx + [b], written := e.written + [b])
    else e.(faults := e.faults + 1)
  }

  /** Reading the data register. */
  function Pop(e: Engine): (r: (byte, Engine)) {
    if e.rx == [] then (0, e.(faults := e.faults + 1))
    else (e.rx[0], e.(rx := e.rx[1..], drained := e.drained + [e.rx[0]]))
  }

  /** The control bit that empties both FIFOs: replies not yet read are given up. */
  function Clear(e: Engine): (r: Engine) {
    e.(tx := [], rx := [], written := e.wire + e.shift, drained := e.drained + e.rx)
  }

  predicate Idle(e: Engine) {
    e.shift == [] && e.tx == []
  }

  /** Bytes written by the software whose replies it has not read yet. */
  function InFlight(e: Engine): (r: nat) {
    |e.tx| + |e.shift| + |e.rx|
  }

  /** The slave's first `n` replies. */
  ghost function Replies(slave: nat -> byte, n: nat): (s: seq<byte>)
    ensures |s| == n
  {
    if n == 0 then [] else Replies(slave, n - 1) + [slave(n - 1)]
  }

  lemma {:induction false} ReplyAt(slave: nat -> byte, n: nat, i: nat)
    requires i < n
    ensures Replies(slave, n)[i] == slave(i)
  {
    if i < n - 1 {
      ReplyAt(slave, n - 1, i);
    }
  }

  /** Nothing was lost or reordered, in either direction. */
  ghost predicate Lossless(e: Engine, slave: nat -> byte) {
    && e.faults == 0
    && |e.shift| <= 1
    && e.written == e.wire + e.shift + e.tx
    && e.drained + e.rx == Replies(slave, |e.wire|)
    && |e.tx| <= e.depth && |e.rx| <= e.depth
  }

  /** Room for every byte in flight, or a clock that waits: then no receive overflow can happen. */
  predicate Safe(e: Engine) {
    e.stalls || InFlight(e) <= e.depth
  }

  /** Work left for hardware and software: 4 for a byte not yet written down to 1 for a reply not yet read. */
  function Work(e: Engine): (r: nat) {
    3 * |e.tx| + 2 * |e.shift| + |e.rx|
  }

  lemma StepKeeps(e: Engine, slave: nat -> byte)
    requires Lossless(e, slave) && Safe(e)
    ensures var f := Step(e, slave);
            && Lossless(f, slave) && Safe(f) && InFlight(f) == InFlight(e)
            && f.written == e.written && f.drained == e.drained && f.depth == e.depth && f.stalls == e.stalls
            && |f.tx| <= |e.tx| && |f.rx| >= |e.rx| && e.wire <= f.wire
            && (f != e ==> Work(f) < Work(e))
            && (f == e ==> Idle(e) || (e.stalls && |e.rx| == e.depth))
  {
  }

  lemma {:induction false} RunKeeps(e: Engine, slave: nat -> byte, steps: nat)
    requires Lossless(e, slave) && Safe(e)
    ensures var f := Run(e, slave, steps);
            && Lossless(f, slave) && Safe(f) && InFlight(f) == InFlight(e)
            && f.written == e.written && f.drained == e.drained && f.depth == e.depth && f.stalls == e.stalls
            && |f.tx| <= |e.tx| && |f.rx| >= |e.rx| && e.wire <= f.wire
            && (f != e ==> Work(f) < Work(e))
            && (f == e && steps > 0 ==> Idle(e) || (e.stalls && |e.rx| == e.depth))
    decreases steps
  {
    if steps > 0 {
      StepKeeps(e, slave);
      RunKeeps(Step(e, slave), slave, steps - 1);
    }
  }

  lemma PushKeeps(e: Engine, slave: nat -> byte, b: byte)
    requires Lossless(e, slave) && |e.tx| < e.depth
    ensures var f := Push(e, b);
            && Lossless(f, slave) && f.written == e.written + [b] && f.drained == e.drained && f.wire == e.wire
            && InFlight(f) == InFlight(e) + 1 && |f.tx| == |e.tx| + 1 && f.rx == e.rx
            && f.depth == e.depth && f.stalls == e.stalls && Work(f) == Work(e) + 3
  {
  }

  lemma PopKeeps(e: Engine, slave: nat -> byte)
    requires Lossless(e, slave) && e.rx != []
    ensures var (b, f) := Pop(e);
            && Lossless(f, slave) && b == e.rx[0]
            && f.drained == e.drained + [b] && f.written == e.written && f.wire == e.wire
            && InFlight(f) == InFlight(e) - 1 && |f.rx| == |e.rx| - 1 && f.tx == e.tx
            && f.depth == e.depth && f.stalls == e.stalls && Work(f) == Work(e) - 1
  {
    assert e.drained + [e.rx[0]] + e.rx[1..] == e.drained + e.rx;
  }

  /** Clearing starts afresh exactly if nothing is in the shift register: a byte there still brings its reply. */
  lemma ClearKeeps(e: Engine, slave: nat -> byte)
    requires Lossless(e, slave)
    ensures Lossless(Clear(e), slave)
    ensures InFlight(Clear(e)) == 0 <==> e.shift == []
  {
  }

  /**
   A full-duplex exchange: between two moments with nothing in flight, what the software wrote went out on the
   wire in order, and what it read are the slave's replies to those bytes, in order.
   */
  lemma Exchanged(e: Engine, f: Engine, slave: nat -> byte, sent: seq<byte>, got: seq<byte>)
    requires Lossless(e, slave) && Lossless(f, slave) && InFlight(e) == 0 && InFlight(f) == 0
    requires f.written == e.written + sent && f.drained == e.drained + got
    ensures f.wire == e.wire + sent
    ensures |got| == |sent| && forall i :: 0 <= i < |got| ==> got[i] == slave(|e.wire| + i)
  {
    assert e.written == e.wire && f.written == f.wire;
    assert e.drained == Replies(slave, |e.wire|) && f.drained == Replies(slave, |f.wire|);
    forall i | 0 <= i < |got| ensures got[i] == slave(|e.wire| + i) {
      assert got[i] == f.drained[|e.wire| + i];
      ReplyAt(slave, |f.wire|, |e.wire| + i);
    }
  }

  /**
   An exchange that starts with the FIFOs empty but perhaps a byte in the shift register: that byte goes out first, and
   the replies read begin with the one to it.
   */
  lemma SentFrom(e: Engine, f: Engine, slave: nat -> byte, sent: seq<byte>)
    requires Lossless(e, slave) && Lossless(f, slave) && e.tx == [] && Idle(f) && f.written == e.written + sent
    ensures f.wire == e.wire + e.shift + sent
  {
    assert e.written == e.wire + e.shift && f.written == f.wire;
  }

  lemma RepliesFrom(e: Engine, f: Engine, slave: nat -> byte, got: seq<byte>)
    requires Lossless(e, slave) && Lossless(f, slave) && e.rx == [] && f.drained == e.drained + got
    ensures forall i :: 0 <= i < |got| ==> got[i] == slave(|e.wire| + i)
  {
    forall i | 0 <= i < |got| ensures got[i] == slave(|e.wire| + i) {
      assert got[i] == (f.drained + f.rx)[|e.wire| + i];
      ReplyAt(slave, |f.wire|, |e.wire| + i);
    }
  }

  // ----- Hardware pace ---------------------------------------------------------------------------

  /** The hardware never stops for good: after every instant there is one with at least a step. */
  ghost predicate Progresses(pace: nat -> nat) {
    forall t: nat :: StepsAfter(pace, t)
  }

  ghost predicate StepsAfter(pace: nat -> nat, t: nat) {
    exists u: nat :: t <= u && pace(u) > 0
  }

  /** The first instant at or after `t` with a hardware step. */
  ghost function NextStep(pace: nat -> nat, t: nat): (u: nat)
    requires Progresses(pace)
    ensures t <= u && pace(u) > 0 && forall v :: t <= v < u ==> pace(v) == 0
  {
    assert StepsAfter(pace, t);
    var u: nat :| t <= u && pace(u) > 0;
    FirstBefore(pace, t, u)
  }

  ghost function FirstBefore(pace: nat -> nat, t: nat, u: nat): (w: nat)
    requires t <= u && pace(u) > 0
    ensures t <= w <= u && pace(w) > 0 && forall v :: t <= v < w ==> pace(v) == 0
    decreases u - t
  {
    if pace(t) > 0 then t else FirstBefore(pace, t + 1, u)
  }

  /** `wait` counts down through the instants without a hardware step. */
  ghost predicate IsCountdown(pace: nat -> nat, wait: nat -> nat) {
    forall t: nat :: pace(t) == 0 ==> wait(t + 1) < wait(t)
  }

  /** Such a countdown exists exactly when the hardware never stops for good. */
  lemma CountdownExists(pace: nat -> nat) returns (wait: nat -> nat)
    requires Progresses(pace)
    ensures IsCountdown(pace, wait)
  {
    wait := (t: nat) => NextStep(pace, t) - t;
    forall t: nat | pace(t) == 0 ensures wait(t + 1) < wait(t) {
      assert pace(NextStep(pace, t)) > 0 && pace(NextStep(pace, t + 1)) > 0;
    }
  }

  lemma CountdownMeansProgress(pace: nat -> nat, wait: nat -> nat)
    requires IsCountdown(pace, wait)
    ensures Progresses(pace)
  {
    forall t: nat ensures StepsAfter(pace, t) {
      StepWithin(pace, wait, t);
    }
  }

  lemma {:induction false} StepWithin(pace: nat -> nat, wait: nat -> nat, t: nat)
    requires IsCountdown(pace, wait)
    ensures StepsAfter(pace, t)
    decreases wait(t)
  {
    if pace(t) == 0 {
      StepWithin(pace, wait, t + 1);
      var u: nat :| t + 1 <= u && pace(u) > 0;
      assert t <= u && pace(u) > 0;
    } else {
      assert t <= t && pace(t) > 0;
    }
  }
}
