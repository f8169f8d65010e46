/**
 What recvfrom promises its callers: the fragments it returns put every datagram together again, in order, for
 any lengths asked for and any arrivals in between.
 */
module Datagrams {
  import opened Bytes
  import opened WizChip

  /** `rest` is the unread end of the datagram begun last, `queue` the datagrams not yet begun. */
  datatype Stream = Stream(rest: seq<byte>, queue: seq<Frame>)

  /** A fragment either begins a datagram (and then names its sender) or goes on with it. */
  datatype Fragment = First(frame: Frame, data: seq<byte>) | More(data: seq<byte>)

  function Min(a: nat, b: nat): (r: nat) {
    if a < b then a else b
  }

  predicate Ready(s: Stream) {
    s.rest != [] || s.queue != []
  }

  /** One call that succeeds: at most `len` bytes, never past the end of a datagram. */
  function Next(s: Stream, len: nat): (r: (Fragment, Stream))
    requires Ready(s)
  {
    if s.rest == [] then
      var f := s.queue[0];
      var n := Min(len, |f.payload|);
      (First(f, f.payload[..n]), Stream(f.payload[n..], s.queue[1..]))
    else
      var n := Min(len, |s.rest|);
      (More(s.rest[..n]), Stream(s.rest[n..], s.queue))
  }

  /** Puts fragments together: each `First` opens a datagram, each `More` adds to the last one. */
  function Assemble(frags: seq<Fragment>): (r: seq<(Frame, seq<byte>)>) {
    if frags == [] then []
    else
      var done := Assemble(frags[..|frags| - 1]);
      match frags[|frags| - 1]
      case First(f, data) => done + [(f, data)]
      case More(data) =>
        if done == [] then []
        else done[..|done| - 1] + [(done[|done| - 1].0, done[|done| - 1].1 + data)]
  }

  /** `done` are the first datagrams of `all`, complete but for the last one, which lacks what is left in `t`. */
  predicate InOrder(done: seq<(Frame, seq<byte>)>, all: seq<Frame>, t: Stream) {
    && |done| <= |all|
    && t.queue == all[|done|..]
    && (forall i :: 0 <= i < |done| ==> done[i].0 == all[i])
    && (forall i :: 0 <= i < |done| - 1 ==> done[i].1 == all[i].payload)
    && (if done == [] then t.rest == [] else done[|done| - 1].1 + t.rest == all[|done| - 1].payload)
  }

  lemma ArriveInOrder(done: seq<(Frame, seq<byte>)>, all: seq<Frame>, t: Stream, fs: seq<Frame>)
    requires InOrder(done, all, t)
    ensures InOrder(done, all + fs, t.(queue := t.queue + fs))
  {
    assert (all + fs)[|done|..] == all[|done|..] + fs;
  }

  lemma FirstInOrder(done: seq<(Frame, seq<byte>)>, all: seq<Frame>, t: Stream, n: nat)
    requires InOrder(done, all, t) && t.rest == [] && t.queue != [] && n <= |t.queue[0].payload|
    ensures var f := t.queue[0]; InOrder(done + [(f, f.payload[..n])], all, Stream(f.payload[n..], t.queue[1..]))
  {
    var f := t.queue[0];
    var more := done + [(f, f.payload[..n])];
    assert f == all[|done|];
    assert t.queue[1..] == all[|more|..];
    if done != [] {
      assert done[|done| - 1].1 + [] == done[|done| - 1].1;
    }
    forall i | 0 <= i < |more| - 1 ensures more[i].1 == all[i].payload {
      assert more[i] == done[i];
    }
  }

  lemma MoreInOrder(done: seq<(Frame, seq<byte>)>, all: seq<Frame>, t: Stream, n: nat)
    requires InOrder(done, all, t) && t.rest != [] && n <= |t.rest|
    ensures done != []
    ensures var last := done[|done| - 1];
            InOrder(done[..|done| - 1] + [(last.0, last.1 + t.rest[..n])], all, Stream(t.rest[n..], t.queue))
  {
    var last := done[|done| - 1];
    assert last.1 + t.rest[..n] + t.rest[n..] == last.1 + t.rest;
  }

  lemma NextInOrder(frags: seq<Fragment>, all: seq<Frame>, t: Stream, len: nat)
    requires InOrder(Assemble(frags), all, t) && Ready(t)
    ensures var (frag, u) := Next(t, len); InOrder(Assemble(frags + [frag]), all, u)
  {
    var (frag, u) := Next(t, len);
    assert (frags + [frag])[..|frags|] == frags;
    if t.rest == [] {
      FirstInOrder(Assemble(frags), all, t, |frag.data|);
    } else {
      MoreInOrder(Assemble(frags), all, t, |frag.data|);
    }
  }
}
