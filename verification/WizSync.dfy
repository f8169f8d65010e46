/**
 Datagram framing in a receive ring: the driver is in step with the ring when what is pending is the unread end
 of the datagram begun last, followed by whole framed datagrams.
 */
module WizSync {
  import opened Bytes
  import opened Ring
  import opened WizChip
  import opened WizDriver
  import opened Datagrams

  /** Of the datagrams `all` the first `begun` were begun so far; `remained` bytes of the last of them are unread. */
  predicate Counted(all: seq<Frame>, remained: nat, begun: nat) {
    && begun <= |all|
    && (remained > 0 ==> begun >= 1 && remained <= |all[begun - 1].payload|)
  }

  function RestOf(all: seq<Frame>, remained: nat, begun: nat): (r: seq<byte>)
    requires Counted(all, remained, begun)
  {
    if remained == 0 then [] else all[begun - 1].payload[|all[begun - 1].payload| - remained..]
  }

  function StreamOf(all: seq<Frame>, remained: nat, begun: nat): (r: Stream)
    requires Counted(all, remained, begun)
  {
    Stream(RestOf(all, remained, begun), all[begun..])
  }

  predicate Framed(protocol: nat, pending: seq<byte>, s: Stream) {
    AllSendable(protocol, s.queue) && pending == s.rest + EncodeAll(protocol, s.queue)
  }

  predicate InSync(c: Chip, sn: nat, remained: nat, begun: nat)
    requires c.Valid() && sn < |c.socks|
  {
    var k := c.socks[sn];
    && IsDatagram(k.protocol) && Counted(k.arrived, remained, begun)
    && Framed(k.protocol, Pending(c, sn), StreamOf(k.arrived, remained, begun))
  }

  lemma StreamGrows(all: seq<Frame>, news: seq<Frame>, remained: nat, begun: nat)
    requires Counted(all, remained, begun)
    ensures Counted(all + news, remained, begun)
    ensures StreamOf(all + news, remained, begun)
            == Stream(StreamOf(all, remained, begun).rest, StreamOf(all, remained, begun).queue + news)
  {
    assert (all + news)[begun..] == all[begun..] + news;
  }

  lemma FramedGrows(protocol: nat, pending: seq<byte>, s: Stream, news: seq<Frame>)
    requires Framed(protocol, pending, s) && AllSendable(protocol, news)
    ensures Framed(protocol, pending + EncodeAll(protocol, news), Stream(s.rest, s.queue + news))
  {
    SendableParts(protocol, s.queue, news);
    EncodeAllConcat(protocol, s.queue, news);
    Regroup(s.rest, EncodeAll(protocol, s.queue), EncodeAll(protocol, news));
  }

  /** Hardware steps keep the driver in step; they only add datagrams at the end. */
  lemma SyncLater(c: Chip, d: Chip, sn: nat, remained: nat, begun: nat)
    requires c.Valid() && d.Valid() && sn < |c.socks| == |d.socks|
    requires InSync(c, sn, remained, begun) && LaterAt(c, d, sn)
    ensures InSync(d, sn, remained, begun)
  {
    hide Pending;
    hide Unsent;
    hide Chip.Valid;
    hide Framed;
    hide StreamOf;
    var k, l := c.socks[sn], d.socks[sn];
    var news := l.arrived[|k.arrived|..];
    assert l.arrived == k.arrived + news;
    StreamGrows(k.arrived, news, remained, begun);
    FramedGrows(k.protocol, Pending(c, sn), StreamOf(k.arrived, remained, begun), news);
  }

  lemma FramedHeader(protocol: nat, pending: seq<byte>, fs: seq<Frame>)
    requires fs != [] && Framed(protocol, pending, Stream([], fs))
    ensures var h := HeaderSize(protocol);
            && Sendable(protocol, fs[0])
            && h <= |pending| && pending[..h] == HeaderOf(protocol, fs[0])
            && Framed(protocol, pending[h..], Stream(fs[0].payload, fs[1..]))
  {
    SendableTail(protocol, fs, 1);
    var head, p, tail := HeaderOf(protocol, fs[0]), fs[0].payload, EncodeAll(protocol, fs[1..]);
    assert EncodeAll(protocol, fs) == head + p + tail;
    assert [] + (head + p + tail) == head + (p + tail);
  }

  lemma StreamBegins(all: seq<Frame>, begun: nat)
    requires begun < |all|
    ensures Counted(all, 0, begun) && StreamOf(all, 0, begun) == Stream([], all[begun..])
    ensures Counted(all, |all[begun].payload|, begun + 1)
    ensures StreamOf(all, |all[begun].payload|, begun + 1) == Stream(all[begun].payload, all[begun..][1..])
  {
    assert all[begun..][1..] == all[begun + 1..];
    var p := all[begun].payload;
    assert p[0..] == p;
  }

  /** At a frame boundary the next bytes are a header; reading it leaves that datagram's payload in front. */
  lemma SyncHeader(c: Chip, sn: nat, begun: nat)
    requires c.Valid() && sn < |c.socks| && InSync(c, sn, 0, begun) && begun < |c.socks[sn].arrived|
    ensures var k := c.socks[sn]; var f, h := k.arrived[begun], HeaderSize(k.protocol);
            && Sendable(k.protocol, f)
            && h <= |Pending(c, sn)| && Pending(c, sn)[..h] == HeaderOf(k.protocol, f)
            && Taken(c, sn, h).Valid() && InSync(Taken(c, sn, h), sn, |f.payload|, begun + 1)
  {
    var k := c.socks[sn];
    StreamBegins(k.arrived, begun);
    FramedHeader(k.protocol, Pending(c, sn), k.arrived[begun..]);
    TakenPending(c, sn, HeaderSize(k.protocol));
  }

  lemma FramedPayload(protocol: nat, pending: seq<byte>, s: Stream, n: nat)
    requires Framed(protocol, pending, s) && n <= |s.rest|
    ensures n <= |pending| && pending[..n] == s.rest[..n]
    ensures Framed(protocol, pending[n..], Stream(s.rest[n..], s.queue))
  {
    assert pending[n..] == s.rest[n..] + EncodeAll(protocol, s.queue);
  }

  lemma StreamContinues(all: seq<Frame>, remained: nat, begun: nat, n: nat)
    requires Counted(all, remained, begun) && n <= remained
    ensures Counted(all, remained - n, begun)
    ensures var s := StreamOf(all, remained, begun);
            |s.rest| == remained && StreamOf(all, remained - n, begun) == Stream(s.rest[n..], s.queue)
  {
    if remained > 0 {
      var p := all[begun - 1].payload;
      assert p[|p| - remained..][n..] == p[|p| - (remained - n)..];
    }
  }

  /** Inside a datagram the next bytes are its unread ones. */
  lemma SyncPayload(c: Chip, sn: nat, remained: nat, begun: nat, n: nat)
    requires c.Valid() && sn < |c.socks| && InSync(c, sn, remained, begun) && n <= remained
    ensures var rest := RestOf(c.socks[sn].arrived, remained, begun);
            && n <= |Pending(c, sn)| && |rest| == remained && Pending(c, sn)[..n] == rest[..n]
            && Taken(c, sn, n).Valid() && InSync(Taken(c, sn, n), sn, remained - n, begun)
  {
    var k := c.socks[sn];
    StreamContinues(k.arrived, remained, begun, n);
    FramedPayload(k.protocol, Pending(c, sn), StreamOf(k.arrived, remained, begun), n);
    TakenPending(c, sn, n);
  }

  /** Nothing is pending exactly when there is no datagram to go on with or to begin. */
  lemma {:induction false} NothingPending(c: Chip, sn: nat, remained: nat, begun: nat)
    requires c.Valid() && sn < |c.socks| && InSync(c, sn, remained, begun)
    ensures Pending(c, sn) != [] <==> Ready(StreamOf(c.socks[sn].arrived, remained, begun))
  {
    var k := c.socks[sn];
    if k.arrived[begun..] != [] {
      assert |Encode(k.protocol, k.arrived[begun..][0])| >= HeaderSize(k.protocol);
    }
  }

  // ----- Taking bytes and telling the chip so, while it goes on ------------------------------------------

  /** `len` bytes are read at `mid`, and the RECV command comes at `end`. */
  ghost predicate Consuming(c: Chip, mid: Chip, end: Chip, sn: nat, len: nat)
    requires c.Valid() && sn < |c.socks|
  {
    && mid.Valid() && Later(c, mid) && len <= |Pending(mid, sn)|
    && Taken(mid, sn, len).Valid() && Later(Taken(mid, sn, len), end)
  }

  lemma ConsumingReceives(c: Chip, mid: Chip, end: Chip, sn: nat, len: nat)
    requires c.Valid() && sn < |c.socks| && Consuming(c, mid, end, sn, len)
    ensures ReceivesOnly(c, Committed(end, sn), sn)
  {
    var t := Taken(mid, sn, len);
    LaterReceives(c, mid, sn);
    TakenReceives(mid, sn, len);
    ReceivesTrans(c, mid, t, sn);
    LaterReceives(t, end, sn);
    CommittedReceives(end, sn);
    ReceivesTrans(t, end, Committed(end, sn), sn);
    ReceivesTrans(c, t, Committed(end, sn), sn);
  }

  lemma CommittedSync(c: Chip, sn: nat, remained: nat, begun: nat)
    requires c.Valid() && sn < |c.socks| && InSync(c, sn, remained, begun)
    ensures var d := Committed(c, sn); d.Valid() && d.socks[sn].Lag() == 0 && InSync(d, sn, remained, begun)
  {
    CommittedPending(c, sn);
  }

  lemma ConsumingHeader(c: Chip, mid: Chip, end: Chip, sn: nat, begun: nat)
    requires c.Valid() && sn < |c.socks| && InSync(c, sn, 0, begun) && begun < |c.socks[sn].arrived|
    requires Consuming(c, mid, end, sn, HeaderSize(c.socks[sn].protocol))
    ensures var d := Committed(end, sn);
            && d.Valid() && d.socks[sn].Lag() == 0
            && InSync(d, sn, |c.socks[sn].arrived[begun].payload|, begun + 1)
  {
    var f := c.socks[sn].arrived[begun];
    assert LaterAt(c, mid, sn);
    SyncLater(c, mid, sn, 0, begun);
    SyncHeader(mid, sn, begun);
    assert mid.socks[sn].arrived[begun] == f;
    assert LaterAt(Taken(mid, sn, HeaderSize(c.socks[sn].protocol)), end, sn);
    SyncLater(Taken(mid, sn, HeaderSize(c.socks[sn].protocol)), end, sn, |f.payload|, begun + 1);
    CommittedSync(end, sn, |f.payload|, begun + 1);
  }

  lemma ConsumingPayload(c: Chip, mid: Chip, end: Chip, sn: nat, remained: nat, begun: nat, n: nat)
    requires c.Valid() && sn < |c.socks| && InSync(c, sn, remained, begun) && n <= remained
    requires Consuming(c, mid, end, sn, n)
    ensures var d := Committed(end, sn);
            d.Valid() && d.socks[sn].Lag() == 0 && InSync(d, sn, remained - n, begun)
  {
    assert LaterAt(c, mid, sn);
    SyncLater(c, mid, sn, remained, begun);
    SyncPayload(mid, sn, remained, begun, n);
    assert LaterAt(Taken(mid, sn, n), end, sn);
    SyncLater(Taken(mid, sn, n), end, sn, remained - n, begun);
    CommittedSync(end, sn, remained - n, begun);
  }

  /** What recvfrom makes of its sender arguments. */
  function Sender(protocol: nat, f: Frame, addr: seq<byte>, port: nat): (r: (seq<byte>, nat)) {
    if protocol == MR_UDP then (f.addr, f.port) else if protocol == MR_IPRAW then (f.addr, port) else (addr, port)
  }

  function Word(high: byte, low: byte): (r: nat) {
    var h: int := high;
    h * 0x100 + low
  }

  lemma WordOfBig16(n: nat)
    requires n < POINTERS
    ensures Word(Big16(n)[0], Big16(n)[1]) == n
  {
  }

  /** Address, port and size lie where the source looks for them, high bytes first. */
  lemma HeaderDecodes(protocol: nat, f: Frame)
    requires Sendable(protocol, f)
    ensures var h, p := HeaderOf(protocol, f), |f.payload|;
            && (protocol == MR_UDP ==>
                  |h| == 8 && h[..4] == f.addr && (h[4] as int) * 0x100 + (h[5] as int) == f.port
                  && (h[6] as int) * 0x100 + (h[7] as int) == p)
            && (protocol == MR_IPRAW ==> |h| == 6 && h[..4] == f.addr && (h[4] as int) * 0x100 + (h[5] as int) == p)
            && (protocol == MR_MACRAW ==> |h| == 2 && (h[0] as int) * 0x100 + (h[1] as int) == p + 2)
  {
    WordOfBig16(f.port);
    WordOfBig16(|f.payload|);
    if protocol == MR_MACRAW {
      WordOfBig16(|f.payload| + 2);
    }
  }

  /**
   A call of recvfrom returned the next fragment of the stream, and the sender with the first one.  `all` are the
   datagrams arrived so far, and the counts are those before and after the call.
   */
  predicate Delivered(protocol: nat, all: seq<Frame>, len: nat, remained0: nat, begun0: nat, remained: nat, begun: nat,
                      ret: int, data: seq<byte>, from0: (seq<byte>, nat), from: (seq<byte>, nat)) {
    && Counted(all, remained0, begun0) && Counted(all, remained, begun) && Ready(StreamOf(all, remained0, begun0))
    && var (frag, s) := Next(StreamOf(all, remained0, begun0), len);
    && data == frag.data && ret == |data| && s == StreamOf(all, remained, begun)
    && from == match frag { case First(f, _) => Sender(protocol, f, from0.0, from0.1) case More(_) => from0 }
  }

  /** The same, of a call's results before and after. */
  predicate Returned(k: Sock, len: nat, remained0: nat, begun0: nat, remained: nat, begun: nat,
                     ret: int, data: seq<byte>, from0: (seq<byte>, nat), from: (seq<byte>, nat)) {
    Delivered(k.protocol, k.arrived, len, remained0, begun0, remained, begun, ret, data, from0, from)
  }

  /** `all` may have grown since the bytes were read. */
  lemma MoreDelivered(protocol: nat, was: seq<Frame>, all: seq<Frame>, len: nat, remained: nat, begun: nat,
                      data: seq<byte>,
                      from: (seq<byte>, nat))
    requires remained > 0 && Counted(was, remained, begun) && was <= all
    requires var n, rest := Min(len, remained), RestOf(was, remained, begun); n <= |rest| && data == rest[..n]
    ensures Delivered(protocol, all, len, remained, begun, remained - Min(len, remained), begun, |data|, data, from,
                      from)
  {
    RestStays(was, all, remained, begun);
    StreamContinues(all, remained, begun, Min(len, remained));
  }

  lemma FirstDelivered(protocol: nat, was: seq<Frame>, all: seq<Frame>, len: nat, begun: nat, data: seq<byte>,
                       from: (seq<byte>, nat))
    requires begun < |was| && was <= all
    requires var p := was[begun].payload; data == p[..Min(len, |p|)]
    ensures var f := was[begun]; var n := Min(len, |f.payload|);
            Delivered(protocol, all, len, 0, begun, |f.payload| - n, begun + 1, |data|, data, from,
                      Sender(protocol, f, from.0, from.1))
  {
    var f := was[begun];
    assert all[begun] == f;
    StreamBegins(all, begun);
    StreamContinues(all, |f.payload|, begun + 1, Min(len, |f.payload|));
  }

  /** Nothing was delivered: the stream is where it was, but for arrivals. */
  lemma RestStays(all: seq<Frame>, more: seq<Frame>, remained: nat, begun: nat)
    requires Counted(all, remained, begun) && all <= more
    ensures Counted(more, remained, begun) && RestOf(more, remained, begun) == RestOf(all, remained, begun)
  {
  }

  // ----- Any number of calls -------------------------------------------------------------------------------

  /** A call that delivered `frag`; the datagrams arrived and the counts are those at its end. */
  datatype Call = Call(all: seq<Frame>, len: nat, remained: nat, begun: nat, frag: Fragment)

  /** The last call, or the state before there was any. */
  function LastOf(calls: seq<Call>): (r: Call) {
    if calls == [] then Call([], 0, 0, 0, More([])) else calls[|calls| - 1]
  }

  /** One delivery after another, with any arrivals in between. */
  predicate Chain(calls: seq<Call>) {
    calls == [] ||
    var before, c := calls[..|calls| - 1], calls[|calls| - 1];
    var was := LastOf(before);
    && Chain(before) && was.all <= c.all
    && Counted(c.all, was.remained, was.begun) && Counted(c.all, c.remained, c.begun)
    && Ready(StreamOf(c.all, was.remained, was.begun))
    && Next(StreamOf(c.all, was.remained, was.begun), c.len) == (c.frag, StreamOf(c.all, c.remained, c.begun))
  }

  function Fragments(calls: seq<Call>): (r: seq<Fragment>) {
    if calls == [] then [] else Fragments(calls[..|calls| - 1]) + [calls[|calls| - 1].frag]
  }

  lemma ArrivalsInOrder(done: seq<(Frame, seq<byte>)>, was: seq<Frame>, all: seq<Frame>, remained: nat, begun: nat)
    requires Counted(was, remained, begun) && was <= all && InOrder(done, was, StreamOf(was, remained, begun))
    ensures Counted(all, remained, begun) && InOrder(done, all, StreamOf(all, remained, begun))
  {
    var fs := all[|was|..];
    assert all == was + fs;
    StreamGrows(was, fs, remained, begun);
    ArriveInOrder(done, was, StreamOf(was, remained, begun), fs);
  }

  /** The fragments delivered make up the first of the datagrams `all`, as far as the last call got. */
  predicate Reassembled(calls: seq<Call>, all: seq<Frame>) {
    var c := LastOf(calls);
    Counted(all, c.remained, c.begun) && InOrder(Assemble(Fragments(calls)), all, StreamOf(all, c.remained, c.begun))
  }

  /**
   Reassembly: whatever the lengths asked for and the arrivals in between, the fragments returned make up the
   datagrams in order of arrival, each under its own sender and with exactly its payload; only the last one may
   be incomplete, and what it lacks is still to come.
   */
  lemma {:induction false} CallsReassemble(calls: seq<Call>)
    requires Chain(calls) && calls != []
    ensures Reassembled(calls, calls[|calls| - 1].all)
  {
    var before, c := calls[..|calls| - 1], calls[|calls| - 1];
    var was := LastOf(before);
    if before != [] {
      CallsReassemble(before);
    }
    ArrivalsInOrder(Assemble(Fragments(before)), was.all, c.all, was.remained, was.begun);
    NextInOrder(Fragments(before), c.all, StreamOf(c.all, was.remained, was.begun), c.len);
  }

  /** The same when more has arrived since the last call. */
  lemma ChainInOrder(calls: seq<Call>, all: seq<Frame>)
    requires Chain(calls) && LastOf(calls).all <= all
    ensures Reassembled(calls, all)
  {
    var c := LastOf(calls);
    if calls != [] {
      CallsReassemble(calls);
    }
    ArrivalsInOrder(Assemble(Fragments(calls)), c.all, all, c.remained, c.begun);
  }

  /** What recvfrom returns is the next link of the chain. */
  lemma ReturnedIsNext(calls: seq<Call>, k: Sock, len: nat, remained: nat, begun: nat, ret: int, data: seq<byte>,
                       from0: (seq<byte>, nat), from: (seq<byte>, nat)) returns (frag: Fragment)
    requires Chain(calls)
    requires var was := LastOf(calls);
             was.all <= k.arrived && Returned(k, len, was.remained, was.begun, remained, begun, ret, data, from0, from)
    ensures frag.data == data && Chain(calls + [Call(k.arrived, len, remained, begun, frag)])
    ensures from == match frag { case First(f, _) => Sender(k.protocol, f, from0.0, from0.1) case More(_) => from0 }
  {
    var was := LastOf(calls);
    frag := Next(StreamOf(k.arrived, was.remained, was.begun), len).0;
    var more := calls + [Call(k.arrived, len, remained, begun, frag)];
    assert more[..|more| - 1] == calls;
  }
}
