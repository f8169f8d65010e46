/**
 The Ethernet driver's supervision of its link (pru_read, pru_write, pru_transfer in remora-eth-3.0.c).  A failed
 receive leaves the receive buffer as it was, and the header in it is looked at all the same.
 */
module LinkSupervisor {
  import opened SpikeFilter

  const JOINTS: nat := 8

  const DATA: int := 0x64617461
  const ACKNOWLEDGE: int := 0x61636b6e
  const ERR: int := 0x6572726f
  const ESTOP: int := 0x65737470

  /** What one transfer brings: nothing, or a datagram. */
  datatype Reply = Nothing | Datagram(header: int, feedback: seq<int>)

  predicate WellFormed(r: Reply) {
    r.Datagram? ==> |r.feedback| == JOINTS
  }

  datatype Link = Link(status: bool, errCount: nat, resetOld: bool, header: int, feedback: seq<int>,
                       joints: seq<Filter>)
  {
    predicate Valid() {
      |feedback| == JOINTS && |joints| == JOINTS
    }
  }

  /** One servo-thread call, with the pins it reads and what its transfer would bring. */
  datatype Event = Read(enable: bool, reset: bool, reply: Reply) | Write(reply: Reply)

  /** Error counting; the third failure in a row, and each one after it, clears the status. */
  function Transfer(s: Link, ok: bool): (r: Link) {
    var errors := if ok then 0 else s.errCount + 1;
    s.(errCount := errors, status := s.status && errors <= 2)
  }

  function FilterAll(joints: seq<Filter>, feedback: seq<int>): (r: seq<Filter>)
    requires |joints| == |feedback|
    ensures |r| == |joints|
  {
    seq(|joints|, i requires 0 <= i < |joints| => Step(joints[i], feedback[i]))
  }

  /** pru_read decides to transfer. */
  predicate Polls(s: Link, enable: bool, reset: bool) {
    enable && ((reset && !s.resetOld) || s.status)
  }

  function AfterRead(s: Link, enable: bool, reset: bool, reply: Reply): (t: Link)
    requires s.Valid() && WellFormed(reply)
    ensures t.Valid()
  {
    var t :=
      if !enable then s.(status := false)
      else if !Polls(s, enable, reset) then s
      else
        var got := if reply.Datagram? then s.(header := reply.header, feedback := reply.feedback) else s;
        var u := Transfer(got, reply.Datagram?);
        if u.header == DATA then u.(status := true, joints := FilterAll(u.joints, u.feedback))
        else if u.header == ACKNOWLEDGE || u.header == ERR then u
        else u.(status := false);
    t.(resetOld := reset)
  }

  /** The reply to a write is read into the header alone. */
  function AfterWrite(s: Link, reply: Reply): (t: Link)
    requires s.Valid()
    ensures t.Valid()
  {
    if !s.status then s
    else
      var got := if reply.Datagram? then s.(header := reply.header) else s;
      var u := Transfer(got, reply.Datagram?);
      if u.header == DATA || u.header == ACKNOWLEDGE || u.header == ERR then u else u.(status := false)
  }

  function After(s: Link, e: Event): (t: Link)
    requires s.Valid() && WellFormed(e.reply)
    ensures t.Valid()
  {
    match e
    case Read(enable, reset, reply) => AfterRead(s, enable, reset, reply)
    case Write(reply) => AfterWrite(s, reply)
  }

  predicate Transfers(s: Link, e: Event) {
    match e
    case Read(enable, reset, _) => Polls(s, enable, reset)
    case Write(_) => s.status
  }

  predicate AllWellFormed(es: seq<Event>) {
    forall i :: 0 <= i < |es| ==> WellFormed(es[i].reply)
  }

  function Run(s: Link, es: seq<Event>): (t: Link)
    requires s.Valid() && AllWellFormed(es)
    ensures t.Valid()
  {
    if es == [] then s else After(Run(s, es[..|es| - 1]), es[|es| - 1])
  }

  // ----- Loss of the link ------------------------------------------------------------------------------------

  predicate Fails(e: Event) {
    e.reply == Nothing
  }

  /** No rising edge of the reset pin. */
  predicate NoEdge(s: Link, e: Event) {
    e.Read? && e.reset ==> s.resetOld
  }

  /** Down without a reset edge, nothing is transferred and the status stays down. */
  lemma StaysDown(s: Link, e: Event)
    requires s.Valid() && WellFormed(e.reply) && !s.status && NoEdge(s, e)
    ensures !Transfers(s, e) && !After(s, e).status
  {
  }

  lemma {:induction false} DownForGood(s: Link, es: seq<Event>)
    requires s.Valid() && AllWellFormed(es) && !s.status
    requires forall i :: 0 <= i < |es| ==> NoEdge(Run(s, es[..i]), es[i])
    ensures !Run(s, es).status
  {
    if es != [] {
      var before := es[..|es| - 1];
      forall i | 0 <= i < |before| ensures NoEdge(Run(s, before[..i]), before[i]) {
        assert before[..i] == es[..i];
      }
      DownForGood(s, before);
      StaysDown(Run(s, before), es[|es| - 1]);
    }
  }

  lemma NothingTransferred(s: Link, es: seq<Event>, i: nat)
    requires s.Valid() && AllWellFormed(es) && !s.status && i < |es|
    requires forall i :: 0 <= i < |es| ==> NoEdge(Run(s, es[..i]), es[i])
    ensures !Transfers(Run(s, es[..i]), es[i])
  {
    var before := es[..i];
    forall j | 0 <= j < i ensures NoEdge(Run(s, before[..j]), before[j]) {
      assert before[..j] == es[..j];
    }
    DownForGood(s, before);
    StaysDown(Run(s, before), es[i]);
  }

  /** A failing step adds one to the error count, unless the link is down, where it stays; a failing write finds it. */
  lemma FailingStep(s: Link, e: Event)
    requires s.Valid() && Fails(e) && NoEdge(s, e)
    ensures var t := After(s, e);
            && (!s.status ==> !t.status)
            && (t.status ==> t.errCount == s.errCount + 1)
            && (e.Write? && t.status ==> t.errCount <= 2)
  {
  }

  /**
   Reads and writes alternate and all of them fail: after four transfers at most the status is down, whatever stale
   header is in the buffer.  From then on `DownForGood` holds.
   */
  lemma LossDetected(s: Link, es: seq<Event>)
    requires s.Valid() && AllWellFormed(es) && |es| == 4
    requires forall i :: 0 <= i < 4 ==> Fails(es[i]) && NoEdge(Run(s, es[..i]), es[i])
    requires forall i :: 0 <= i < 3 ==> (es[i].Write? <==> es[i + 1].Read?)
    ensures !Run(s, es).status
  {
    RunPrefix(s, es, 0);
    RunPrefix(s, es, 1);
    RunPrefix(s, es, 2);
    RunPrefix(s, es, 3);
    assert es[..4] == es;
    FailingStep(Run(s, es[..0]), es[0]);
    FailingStep(Run(s, es[..1]), es[1]);
    FailingStep(Run(s, es[..2]), es[2]);
    FailingStep(Run(s, es[..3]), es[3]);
  }

  lemma RunPrefix(s: Link, es: seq<Event>, i: nat)
    requires s.Valid() && AllWellFormed(es) && i < |es|
    ensures Run(s, es[..i + 1]) == After(Run(s, es[..i]), es[i])
  {
    assert es[..i + 1][..i] == es[..i];
  }

  /** So there is no fifth transfer, however long the loss lasts. */
  lemma {:induction false} NoFifthTransfer(s: Link, es: seq<Event>, i: nat)
    requires s.Valid() && AllWellFormed(es) && 4 <= i < |es|
    requires forall j :: 0 <= j < |es| ==> NoEdge(Run(s, es[..j]), es[j])
    requires forall j :: 0 <= j < 4 ==> Fails(es[j])
    requires forall j :: 0 <= j < 3 ==> (es[j].Write? <==> es[j + 1].Read?)
    ensures !Run(s, es[..i]).status && !Transfers(Run(s, es[..i]), es[i])
  {
    if i == 4 {
      forall j | 0 <= j < 4 ensures Fails(es[..4][j]) && NoEdge(Run(s, es[..4][..j]), es[..4][j]) {
        assert es[..4][..j] == es[..j];
      }
      LossDetected(s, es[..4]);
    } else {
      NoFifthTransfer(s, es, i - 1);
      StaysDown(Run(s, es[..i - 1]), es[i - 1]);
      RunPrefix(s, es, i - 1);
    }
    StaysDown(Run(s, es[..i]), es[i]);
  }

  /** Every step fails, and no reset edge comes while the link is down. */
  predicate Lost(s: Link, es: seq<Event>)
    requires s.Valid() && AllWellFormed(es)
  {
    es == [] ||
    var before, e := es[..|es| - 1], es[|es| - 1];
    Lost(s, before) && Fails(e) && (Run(s, before).status || NoEdge(Run(s, before), e))
  }

  /** The status outlives a failing step, `header` being in the buffer and `errors` failures counted before. */
  predicate Survives(header: int, errors: nat, e: Event) {
    && (e.Read? ==> e.enable)
    && if e.Read? && header == DATA then true
       else errors < 2 && (header == DATA || header == ACKNOWLEDGE || header == ERR)
  }

  /** A loss goes unnoticed, exactly: as long as every step of it lets the status live. */
  lemma {:induction false} LossSurvived(s: Link, es: seq<Event>)
    requires s.Valid() && AllWellFormed(es) && s.status && Lost(s, es)
    ensures Run(s, es).header == s.header
    ensures Run(s, es).status ==> Run(s, es).errCount == s.errCount + |es|
    ensures Run(s, es).status <==> forall i :: 0 <= i < |es| ==> Survives(s.header, s.errCount + i, es[i])
  {
    if es != [] {
      var n := |es| - 1;
      LossSurvived(s, es[..n]);
      SurvivesStep(Run(s, es[..n]), es[n]);
      assert forall i :: 0 <= i < n ==> es[..n][i] == es[i];
    }
  }

  lemma SurvivesStep(s: Link, e: Event)
    requires s.Valid() && Fails(e) && (s.status || NoEdge(s, e))
    ensures var t := After(s, e);
            && t.header == s.header && (t.status ==> t.errCount == s.errCount + 1)
            && (t.status <==> s.status && Survives(s.header, s.errCount, e))
  {
  }

  /**
   Three failures or more go unnoticed if and only if the stale header is that of data, every read is enabled and no
   write is the third failure or a later one.
   */
  lemma LossUnnoticed(s: Link, es: seq<Event>)
    requires s.Valid() && AllWellFormed(es) && s.status && Lost(s, es) && es != [] && s.errCount + |es| >= 3
    ensures Run(s, es).status <==>
            && s.header == DATA
            && forall i :: 0 <= i < |es| ==> if es[i].Read? then es[i].enable else s.errCount + i < 2
  {
    LossSurvived(s, es);
    var n := |es| - 1;
    if Run(s, es).status {
      assert Survives(s.header, s.errCount + n, es[n]);
    }
  }

  lemma LostThree(s: Link, es: seq<Event>)
    requires s.Valid() && AllWellFormed(es) && |es| == 3
    requires forall i :: 0 <= i < 3 ==> Fails(es[i]) && NoEdge(Run(s, es[..i]), es[i])
    ensures Lost(s, es)
  {
    assert es[..2][..1] == es[..1] && es[..1][..0] == [] == es[..0];
    assert Lost(s, es[..1][..0]);
    assert NoEdge(Run(s, es[..0]), es[0]) && NoEdge(Run(s, es[..1]), es[1]) && NoEdge(Run(s, es[..2]), es[2]);
    assert Lost(s, es[..1]);
    assert Lost(s, es[..2]);
  }

  /**
   Of alternating reads and writes, three failures are not always enough, exactly: starting and ending with a read
   that is enabled, and with a stale data header, which the third failure finds and takes for an answer.
   */
  lemma ThreeFailures(s: Link, es: seq<Event>)
    requires s.Valid() && AllWellFormed(es) && |es| == 3 && s.status && s.errCount == 0
    requires forall i :: 0 <= i < 3 ==> Fails(es[i]) && NoEdge(Run(s, es[..i]), es[i])
    requires forall i :: 0 <= i < 2 ==> (es[i].Write? <==> es[i + 1].Read?)
    ensures Run(s, es).status <==>
            es[0].Read? && es[2].Read? && es[0].enable && es[2].enable && s.header == DATA
  {
    LostThree(s, es);
    LossUnnoticed(s, es);
    assert es[0].Write? <==> es[0 + 1].Read?;
    assert es[1].Write? <==> es[1 + 1].Read?;
  }

  /** So four are needed: with stale data in the buffer the third failure, seen by a read, raises the status again. */
  lemma FourAreNeeded(s: Link)
    requires s.Valid() && s.status && s.errCount == 0 && s.header == DATA
    ensures var es := [Read(true, false, Nothing), Write(Nothing), Read(true, false, Nothing)]; Run(s, es).status
  {
    ThreeFailures(s, [Read(true, false, Nothing), Write(Nothing), Read(true, false, Nothing)]);
  }

  /** The alternation is needed too: reads alone never notice the loss while the stale header is data. */
  lemma {:induction false} ReadsAloneNeverNotice(s: Link, es: seq<Event>)
    requires s.Valid() && AllWellFormed(es) && s.status && s.header == DATA
    requires forall i :: 0 <= i < |es| ==> es[i].Read? && es[i].enable && Fails(es[i])
    ensures Run(s, es).status && Run(s, es).header == DATA && Run(s, es).errCount == s.errCount + |es|
    ensures Lost(s, es)
  {
    if es != [] {
      ReadsAloneNeverNotice(s, es[..|es| - 1]);
      LossSurvived(s, es);
    }
  }

  // ----- Coming back -----------------------------------------------------------------------------------------

  /** The link is down, and the header in the buffer is not that of data. */
  predicate Latched(s: Link) {
    !s.status && s.header != DATA
  }

  /** A reset edge whose own transfer brings data. */
  predicate Releases(s: Link, e: Event) {
    e.Read? && e.enable && e.reset && !s.resetOld && e.reply.Datagram? && e.reply.header == DATA
  }

  /** An E-stop that arrives, in either direction, latches. */
  lemma EstopLatches(s: Link, e: Event)
    requires s.Valid() && WellFormed(e.reply) && Transfers(s, e) && e.reply.Datagram? && e.reply.header == ESTOP
    ensures Latched(After(s, e))
  {
  }

  /** Exactly a release ends it; whatever else happens, it stays latched. */
  lemma LatchStep(s: Link, e: Event)
    requires s.Valid() && WellFormed(e.reply) && Latched(s)
    ensures After(s, e).status <==> Releases(s, e)
    ensures !Releases(s, e) ==> Latched(After(s, e))
  {
  }

  /** E-stop latch over whole runs. */
  lemma {:induction false} EstopHolds(s: Link, es: seq<Event>)
    requires s.Valid() && AllWellFormed(es) && Latched(s)
    requires forall i :: 0 <= i < |es| ==> !Releases(Run(s, es[..i]), es[i])
    ensures Latched(Run(s, es))
  {
    if es != [] {
      var n := |es| - 1;
      forall i | 0 <= i < n ensures !Releases(Run(s, es[..n][..i]), es[..n][i]) {
        assert es[..n][..i] == es[..i];
      }
      EstopHolds(s, es[..n]);
      LatchStep(Run(s, es[..n]), es[n]);
    }
  }

  /**
   After a plain link loss it is different.  A reset edge whose transfer fails brings the status back if and only if
   the stale header is that of data; the joints then take the stale feedback in once more.
   */
  lemma StaleDataRevives(s: Link)
    requires s.Valid() && !s.status && !s.resetOld
    ensures var t := AfterRead(s, true, true, Nothing);
            && (t.status <==> s.header == DATA)
            && (s.header == DATA ==> t.joints == FilterAll(s.joints, s.feedback))
  {
  }

  // ----- Stale feedback and the spike filter -----------------------------------------------------------------

  /** A read that polls in vain and finds a data header takes the feedback in the buffer once more. */
  predicate TakesStale(s: Link, e: Event) {
    e.Read? && Polls(s, e.enable, e.reset) && Fails(e) && s.header == DATA
  }

  function Takes(s: Link, es: seq<Event>): (n: nat)
    requires s.Valid() && AllWellFormed(es)
  {
    if es == [] then 0
    else
      var before, e := es[..|es| - 1], es[|es| - 1];
      Takes(s, before) + if TakesStale(Run(s, before), e) then 1 else 0
  }

  /** No read brings a datagram; writes may. */
  predicate NoFreshFeedback(es: seq<Event>) {
    forall i :: 0 <= i < |es| && es[i].Read? ==> Fails(es[i])
  }

  lemma WithoutFreshFeedback(s: Link, e: Event, j: nat)
    requires s.Valid() && WellFormed(e.reply) && j < JOINTS && (e.Read? ==> Fails(e))
    ensures After(s, e).feedback == s.feedback
    ensures After(s, e).joints[j] == if TakesStale(s, e) then Step(s.joints[j], s.feedback[j]) else s.joints[j]
  {
  }

  /**
   One glitch in the buffer, rejected once: until fresh feedback comes, the filter has counted every read that took
   the stale feedback in again, and with the second one the glitch is through.
   */
  lemma {:induction false} StaleGlitch(s: Link, es: seq<Event>, j: nat, c: int)
    requires s.Valid() && AllWellFormed(es) && NoFreshFeedback(es) && j < JOINTS
    requires s.joints[j] == Filter(c, 1) && Far(s.feedback[j], c)
    ensures Run(s, es).feedback == s.feedback
    ensures Run(s, es).joints[j] == if Takes(s, es) >= 2 then Filter(s.feedback[j], 0) else Filter(c, 1 + Takes(s, es))
  {
    if es != [] {
      var n := |es| - 1;
      StaleGlitch(s, es[..n], j, c);
      WithoutFreshFeedback(Run(s, es[..n]), es[n], j);
      NearSelf(s.feedback[j]);
    }
  }

  /**
   The spike filter promises that one glitch is rejected.  Exactly when it is not: a datagram with a glitch comes in,
   and at least two reads that fail find a data header before fresh feedback comes.
   */
  lemma GlitchPasses(s: Link, reset: bool, glitch: seq<int>, es: seq<Event>, j: nat)
    requires s.Valid() && |glitch| == JOINTS && j < JOINTS && Polls(s, true, reset)
    requires s.joints[j].rejected == 0 && Far(glitch[j], s.joints[j].count)
    requires AllWellFormed(es) && NoFreshFeedback(es)
    ensures var t := AfterRead(s, true, reset, Datagram(DATA, glitch));
            && t.joints[j] == Filter(s.joints[j].count, 1)
            && (Run(t, es).joints[j].count == glitch[j] <==> Takes(t, es) >= 2)
            && (Run(t, es).joints[j].count == s.joints[j].count <==> Takes(t, es) < 2)
  {
    StaleGlitch(AfterRead(s, true, reset, Datagram(DATA, glitch)), es, j, s.joints[j].count);
    NearSelf(glitch[j]);
  }

  lemma {:induction false} RunAfter(s: Link, e: Event, es: seq<Event>)
    requires s.Valid() && WellFormed(e.reply) && AllWellFormed(es)
    ensures Run(s, [e] + es) == Run(After(s, e), es)
  {
    if es == [] {
      assert [e] + es == [e] && Run(s, []) == s;
    } else {
      var n := |es| - 1;
      assert ([e] + es)[..|es|] == [e] + es[..n];
      RunAfter(s, e, es[..n]);
    }
  }

  /** Two failing reads, the writes between them having got late data headers, are such a run. */
  lemma OneGlitchPasses(s: Link, glitch: seq<int>)
    requires s.Valid() && s.status && |glitch| == JOINTS
    requires s.joints[0].rejected == 0 && Far(glitch[0], s.joints[0].count)
    ensures var good, late := Read(true, false, Datagram(DATA, glitch)), Write(Datagram(DATA, glitch));
            var lost := Read(true, false, Nothing);
            Run(s, [good, late, lost, late, lost]).joints[0] == Filter(glitch[0], 0)
  {
    var good, late := Read(true, false, Datagram(DATA, glitch)), Write(Datagram(DATA, glitch));
    var lost := Read(true, false, Nothing);
    var t, es := After(s, good), [late, lost, late, lost];
    RunAfter(s, good, es);
    assert [good] + es == [good, late, lost, late, lost];
    assert es[..3] == [late, lost, late] && es[..3][..2] == [late, lost] && es[..3][..2][..1] == [late];
    assert Takes(t, es[..3][..2][..1]) == 0;
    assert Takes(t, es[..3][..2]) == 1;
    assert Takes(t, es[..3]) == 1;
    StaleGlitch(t, es, 0, s.joints[0].count);
  }

  // ----- The code --------------------------------------------------------------------------------------------

  function FilterStates(counts: seq<int>, rejected: seq<nat>): (r: seq<Filter>)
    requires |counts| == |rejected|
    ensures |r| == |counts|
  {
    seq(|counts|, i requires 0 <= i < |counts| => Filter(counts[i], rejected[i]))
  }

  class LinkDriver {
    var status: bool
    var errCount: nat
    var resetOld: bool
    /** The receive buffer. */
    var header: int
    var feedback: seq<int>
    const count: array<int>
    const oldCount: array<int>
    const filterCount: array<nat>

    ghost predicate Valid()
      reads this
    {
      && |feedback| == JOINTS && count.Length == JOINTS && oldCount.Length == JOINTS && filterCount.Length == JOINTS
      && count != oldCount
    }

    ghost function Joints(): (r: seq<Filter>)
      requires count.Length == JOINTS && filterCount.Length == JOINTS
      reads count, filterCount
      ensures |r| == JOINTS
    {
      FilterStates(count[..], filterCount[..])
    }

    ghost function Abs(): (s: Link)
      requires Valid()
      reads this, count, filterCount
      ensures s.Valid()
    {
      Link(status, errCount, resetOld, header, feedback, Joints())
    }

    constructor ()
      ensures Valid() && !status && errCount == 0 && fresh(count) && fresh(oldCount) && fresh(filterCount)
    {
      status, errCount, resetOld, header := false, 0, false, 0;
      feedback := seq(JOINTS, i => 0);
      count := new int[JOINTS](i => 0);
      oldCount := new int[JOINTS](i => 0);
      filterCount := new nat[JOINTS](i => 0);
    }

    /** The receive buffer takes what came, all of it or the header alone; then errors are counted. */
    method PruTransfer(reply: Reply, whole: bool)
      requires Valid() && WellFormed(reply)
      modifies `status, `errCount, `header, `feedback
      ensures Valid()
      ensures var s := old(Abs());
              var got := if reply == Nothing then s
                         else if whole then s.(header := reply.header, feedback := reply.feedback)
                         else s.(header := reply.header);
              Abs() == Transfer(got, reply.Datagram?)
    {
      if reply.Datagram? {
        header := reply.header;
        if whole {
          feedback := reply.feedback;
        }
        errCount := 0;
      } else {
        errCount := errCount + 1;
      }
      if errCount > 2 {
        status := false;
      }
    }

    /** The spike filter, in place. */
    method FilterJoints()
      requires Valid()
      modifies count, oldCount, filterCount
      ensures Joints() == FilterAll(old(Joints()), feedback)
      ensures forall j :: 0 <= j < JOINTS && -0x8000_0000 < feedback[j] - old(count[j]) < 0x8000_0000 ==>
                if -250 <= feedback[j] - old(count[j]) <= 250 || old(filterCount[j]) >= 2 then
                  count[j] == feedback[j] && filterCount[j] == 0
                else
                  count[j] == old(count[j]) && filterCount[j] == old(filterCount[j]) + 1
    {
      for i := 0 to JOINTS
        invariant forall k :: 0 <= k < i ==>
                    Filter(count[k], filterCount[k]) == Step(old(Filter(count[k], filterCount[k])), feedback[k])
        invariant forall k :: i <= k < JOINTS ==> count[k] == old(count[k]) && filterCount[k] == old(filterCount[k])
      {
        oldCount[i] := count[i];
        count[i] := feedback[i];
        if Far(count[i], oldCount[i]) && filterCount[i] < N {
          filterCount[i] := filterCount[i] + 1;
          count[i] := oldCount[i];
        } else {
          filterCount[i] := 0;
        }
      }
    }

    method PruRead(enable: bool, reset: bool, reply: Reply)
      requires Valid() && WellFormed(reply)
      modifies `status, `errCount, `resetOld, `header, `feedback, count, oldCount, filterCount
      ensures Valid() && Abs() == AfterRead(old(Abs()), enable, reset, reply)
      ensures resetOld == reset
      ensures var polls := enable && ((reset && !old(resetOld)) || old(status));
              // The receive buffer and the error count.
              && (polls && reply.Datagram? ==> header == reply.header && feedback == reply.feedback && errCount == 0)
              && (polls && reply.Nothing? ==>
                    header == old(header) && feedback == old(feedback) && errCount == old(errCount) + 1)
              && (!polls ==> header == old(header) && feedback == old(feedback) && errCount == old(errCount))
              // The status.
              && (polls ==>
                    (status <==> header == DATA
                                 || ((header == ACKNOWLEDGE || header == ERR) && old(status) && errCount <= 2)))
              && (!polls ==> (status <==> enable && old(status)))
              // Near feedback becomes the count at once; far feedback is held back twice.
              && (polls && header == DATA ==>
                    forall j :: 0 <= j < JOINTS && -0x8000_0000 < feedback[j] - old(count[j]) < 0x8000_0000 ==>
                      if -250 <= feedback[j] - old(count[j]) <= 250 || old(filterCount[j]) >= 2 then
                        count[j] == feedback[j] && filterCount[j] == 0
                      else
                        count[j] == old(count[j]) && filterCount[j] == old(filterCount[j]) + 1)
              && (!(polls && header == DATA) ==>
                    count[..] == old(count[..]) && filterCount[..] == old(filterCount[..]))
    {
      hide FilterAll;
      if enable {
        if (reset && !resetOld) || status {
          PruTransfer(reply, true);
          if header == DATA {
            status := true;
            FilterJoints();
          } else if header != ACKNOWLEDGE && header != ERR {
            status := false;
          }
        }
      } else {
        status := false;
      }
      resetOld := reset;
    }

    method PruWrite(reply: Reply)
      requires Valid() && WellFormed(reply)
      modifies `status, `errCount, `header, `feedback
      ensures Valid() && Abs() == AfterWrite(old(Abs()), reply)
      ensures feedback == old(feedback)
      ensures old(status) && reply.Datagram? ==> header == reply.header && errCount == 0
      ensures old(status) && reply.Nothing? ==> header == old(header) && errCount == old(errCount) + 1
      ensures !old(status) ==> header == old(header) && errCount == old(errCount)
      ensures status <==>
              old(status) && errCount <= 2 && (header == DATA || header == ACKNOWLEDGE || header == ERR)
    {
      if status {
        PruTransfer(reply, false);
        if header != DATA && header != ACKNOWLEDGE && header != ERR {
          status := false;
        }
      }
    }
  }
}
