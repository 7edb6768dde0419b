/**
 The reliability engine of one channel: what the sender and the receiver of one
 direction keep, and what every event does to them (channel.go). Offsets are
 stream positions; a FIN occupies one virtual position after the last byte.
 */
module Arq {
  import opened Bytes

  datatype Frame = Data(offset: nat, payload: seq<byte>) | Fin(offset: nat) {
    /** First stream position after the frame. */
    function End(): nat {
      match this
      case Data(o, p) => o + |p|
      case Fin(o) => o + 1
    }
  }

  datatype Sender = Sender(writeOffset: nat, unacked: seq<Frame>, finSent: bool)

  /** `reorder` is None once the channel's reliability state has been cleaned up; `closed`
      and `sessionClosed` are the channel's and the session's flags, either of which keeps
      payloads from the ring; `pushed` is everything ever handed to the receive ring. */
  datatype Receiver = Receiver(readOffset: nat, reorder: Option<map<nat, seq<byte>>>, fin: Option<nat>,
                               closed: bool, sessionClosed: bool, pushed: seq<byte>) {
    predicate Deaf() { closed || sessionClosed }
  }

  const NewSender := Sender(0, [], false)
  const NewReceiver := Receiver(0, Some(map[]), None, false, false, [])

  // ---------- sender ----------

  function QueueData(s: Sender, payload: seq<byte>): Sender {
    s.(writeOffset := s.writeOffset + |payload|, unacked := s.unacked + [Data(s.writeOffset, payload)])
  }

  function QueueFin(s: Sender): Sender {
    s.(unacked := s.unacked + [Fin(s.writeOffset)], finSent := true)
  }

  /** The list a cumulative ACK leaves behind. */
  function DropAcked(unacked: seq<Frame>, ack: int): seq<Frame> {
    if unacked == [] || unacked[0].End() > ack then unacked else DropAcked(unacked[1..], ack)
  }

  function OnAck(s: Sender, ack: nat): Sender {
    s.(unacked := DropAcked(s.unacked, ack))
  }

  // ---------- receiver ----------

  /** The position moves past a payload, which the ring takes or not. */
  function Advance(r: Receiver, payload: seq<byte>, keep: bool): Receiver {
    r.(readOffset := r.readOffset + |payload|, pushed := if keep then r.pushed + payload else r.pushed)
  }

  function Accept(r: Receiver, payload: seq<byte>): Receiver {
    Advance(r, payload, !r.Deaf())
  }

  /** Hand over every stashed frame that has become the next one. */
  function Drain(r: Receiver): Receiver
    requires r.reorder.Some?
    decreases |r.reorder.value|
  {
    var m: map<nat, seq<byte>> := r.reorder.value;
    if r.readOffset in m then
      assert |m - {r.readOffset}| < |m| by { SmallerMap(m, r.readOffset); }
      Drain(Accept(r.(reorder := Some(m - {r.readOffset})), m[r.readOffset]))
    else r
  }

  lemma SmallerMap<K, V>(m: map<K, V>, k: K)
    requires k in m
    ensures |m - {k}| == |m| - 1
  {
    assert (m - {k}).Keys == m.Keys - {k};
  }

  /** A DATA frame arrives; `limit` is the reorder limit in bytes. */
  function Feed(r: Receiver, limit: nat, offset: nat, payload: seq<byte>): Receiver {
    if r.reorder.None? || offset + |payload| <= r.readOffset then r
    else if offset == r.readOffset then Drain(Accept(r, payload))
    else if offset > r.readOffset then
      if offset - r.readOffset > limit || offset in r.reorder.value then r
      else r.(reorder := Some(r.reorder.value[offset := payload]))
    else r
  }

  /** The late and the in-order case of the arrival switch. */
  lemma FeedCases(r: Receiver, limit: nat, offset: nat, payload: seq<byte>)
    ensures r.reorder.None? || offset + |payload| <= r.readOffset ==> Feed(r, limit, offset, payload) == r
    ensures r.reorder.Some? && offset == r.readOffset && payload != [] ==>
      Feed(r, limit, offset, payload) == Drain(Accept(r, payload))
  {
    hide Drain;
  }

  function HandleFin(r: Receiver, offset: nat): Receiver {
    if r.reorder.None? then r else r.(fin := Some(offset))
  }

  function Deliver(r: Receiver, limit: nat, f: Frame): Receiver {
    match f
    case Data(o, p) => Feed(r, limit, o, p)
    case Fin(o) => HandleFin(r, o)
  }

  predicate FinReached(r: Receiver) {
    r.fin.Some? && r.readOffset >= r.fin.value
  }

  function CumulativeAck(r: Receiver): nat {
    if FinReached(r) then r.fin.value + 1 else r.readOffset
  }

  // ---------- what a sender may have put on the wire ----------

  /** `f` is one of the frames the stream was cut into: `cuts` are the frame
      boundaries of `written`. */
  ghost predicate IsFrame(f: Frame, written: seq<byte>, cuts: set<nat>, finSent: bool) {
    match f
    case Data(o, p) =>
      && 0 < |p| && o + |p| <= |written| && p == written[o..o + |p|]
      && o in cuts && o + |p| in cuts
      && forall k <- cuts :: k <= o || o + |p| <= k
    case Fin(o) => finSent && o == |written|
  }

  /** What is true of the receiver of `written`, whatever reached it. */
  ghost predicate ReceiverInv(r: Receiver, written: seq<byte>, cuts: set<nat>, finSent: bool) {
    && ReceiverMidway(r, written, cuts, finSent)
    && (r.reorder.Some? ==> r.readOffset !in r.reorder.value)
  }

  /** The same in the middle of a drain, when the next frame may still be stashed. */
  ghost predicate ReceiverMidway(r: Receiver, written: seq<byte>, cuts: set<nat>, finSent: bool) {
    && r.readOffset in cuts && r.readOffset <= |written|
    && r.pushed <= written
    && (if r.Deaf() then |r.pushed| <= r.readOffset else |r.pushed| == r.readOffset)
    && (r.reorder.Some? ==>
          forall k <- r.reorder.value ::
            r.readOffset <= k && IsFrame(Data(k, r.reorder.value[k]), written, cuts, finSent))
    && (r.fin.Some? ==> finSent && r.fin.value == |written|)
  }

  /** The next frame of the stream keeps the bytes pushed a prefix, if nothing was refused before it. */
  lemma AdvanceKeeps(r: Receiver, payload: seq<byte>, keep: bool, written: seq<byte>, cuts: set<nat>, finSent: bool)
    requires ReceiverInv(r, written, cuts, finSent)
    requires IsFrame(Data(r.readOffset, payload), written, cuts, finSent)
    requires if keep then |r.pushed| == r.readOffset else r.Deaf()
    ensures ReceiverMidway(Advance(r, payload, keep), written, cuts, finSent)
    ensures CumulativeAck(Advance(r, payload, keep)) >= CumulativeAck(r)
  {
    var end := r.readOffset + |payload|;
    assert r.pushed == written[..|r.pushed|] && written[..end] == written[..r.readOffset] + payload;
    if r.reorder.Some? {
      forall k | k in r.reorder.value ensures end <= k {
        assert IsFrame(Data(k, r.reorder.value[k]), written, cuts, finSent);
      }
    }
  }

  lemma AcceptKeeps(r: Receiver, payload: seq<byte>, written: seq<byte>, cuts: set<nat>, finSent: bool)
    requires ReceiverInv(r, written, cuts, finSent)
    requires IsFrame(Data(r.readOffset, payload), written, cuts, finSent)
    ensures ReceiverMidway(Accept(r, payload), written, cuts, finSent)
    ensures CumulativeAck(Accept(r, payload)) >= CumulativeAck(r)
  {
    AdvanceKeeps(r, payload, !r.Deaf(), written, cuts, finSent);
  }

  lemma {:induction false} DrainKeeps(r: Receiver, written: seq<byte>, cuts: set<nat>, finSent: bool)
    requires r.reorder.Some? && ReceiverMidway(r, written, cuts, finSent)
    ensures ReceiverInv(Drain(r), written, cuts, finSent)
    ensures Drain(r).reorder.Some? && Drain(r).fin == r.fin
    ensures Drain(r).closed == r.closed && Drain(r).sessionClosed == r.sessionClosed
    ensures Drain(r).readOffset >= r.readOffset && r.pushed <= Drain(r).pushed
    decreases |r.reorder.value|
  {
    var m: map<nat, seq<byte>> := r.reorder.value;
    if r.readOffset in m {
      SmallerMap(m, r.readOffset);
      var r1 := r.(reorder := Some(m - {r.readOffset}));
      AcceptKeeps(r1, m[r.readOffset], written, cuts, finSent);
      hide IsFrame;
      DrainKeeps(Accept(r1, m[r.readOffset]), written, cuts, finSent);
    }
  }

  /** Whatever frame of the stream arrives, in any order and any number of times,
      the receiver's invariant holds afterwards and its progress is never undone. */
  lemma DeliverKeeps(r: Receiver, limit: nat, f: Frame, written: seq<byte>, cuts: set<nat>, finSent: bool)
    requires ReceiverInv(r, written, cuts, finSent) && IsFrame(f, written, cuts, finSent)
    ensures ReceiverInv(Deliver(r, limit, f), written, cuts, finSent)
    ensures Deliver(r, limit, f).readOffset >= r.readOffset
    ensures r.pushed <= Deliver(r, limit, f).pushed
    ensures CumulativeAck(Deliver(r, limit, f)) >= CumulativeAck(r)
    ensures FinReached(r) ==> FinReached(Deliver(r, limit, f))
    ensures Deliver(r, limit, f).closed == r.closed && Deliver(r, limit, f).sessionClosed == r.sessionClosed
    ensures Deliver(r, limit, f).reorder.Some? == r.reorder.Some?
  {
    match f
    case Data(o, p) =>
      if r.reorder.Some? && o == r.readOffset {
        AcceptKeeps(r, p, written, cuts, finSent);
        DrainKeeps(Accept(r, p), written, cuts, finSent);
        hide IsFrame, ReceiverMidway, Drain;
      } else {
        hide Drain;
      }
    case Fin(o) =>
  }

  /** Frames of one stream never straddle the receiver's position, so the last
      branch of the arrival switch, a partial overlap, is dead. */
  lemma NoPartialOverlap(r: Receiver, f: Frame, written: seq<byte>, cuts: set<nat>, finSent: bool)
    requires ReceiverInv(r, written, cuts, finSent) && IsFrame(f, written, cuts, finSent) && f.Data?
    ensures f.End() <= r.readOffset || f.offset >= r.readOffset
  {
  }

  // ---------- the retransmission list ----------

  /** Consecutive frames of the stream covering positions `from` up to `to`. */
  ghost predicate Chain(us: seq<Frame>, from: nat, to: nat, written: seq<byte>, cuts: set<nat>, finSent: bool) {
    if us == [] then from == to
    else us[0].offset == from && IsFrame(us[0], written, cuts, finSent)
         && Chain(us[1..], us[0].End(), to, written, cuts, finSent)
  }

  lemma {:induction false} ChainBounds(us: seq<Frame>, from: nat, to: nat, written: seq<byte>, cuts: set<nat>,
                                       finSent: bool)
    requires Chain(us, from, to, written, cuts, finSent)
    ensures from <= to
    ensures forall f <- us :: IsFrame(f, written, cuts, finSent) && from <= f.offset && f.End() <= to
  {
    if us != [] {
      ChainBounds(us[1..], us[0].End(), to, written, cuts, finSent);
      assert us == [us[0]] + us[1..];
    }
  }

  lemma {:induction false} ChainAppend(us: seq<Frame>, f: Frame, from: nat, to: nat,
                                       written: seq<byte>, cuts: set<nat>, finSent: bool)
    requires Chain(us, from, to, written, cuts, finSent)
    requires f.offset == to && IsFrame(f, written, cuts, finSent)
    ensures Chain(us + [f], from, f.End(), written, cuts, finSent)
  {
    if us == [] {
      assert [f][1..] == [];
    } else {
      ChainAppend(us[1..], f, us[0].End(), to, written, cuts, finSent);
      assert (us + [f])[1..] == us[1..] + [f];
    }
  }

  /** A frame of the stream stays one when the stream grows by a whole frame. */
  lemma FrameSurvivesWrite(f: Frame, written: seq<byte>, cuts: set<nat>, p: seq<byte>)
    requires IsFrame(f, written, cuts, false) && 0 < |p| && forall k <- cuts :: k <= |written|
    ensures IsFrame(f, written + p, cuts + {|written| + |p|}, false)
  {
    assert f.payload == (written + p)[f.offset..f.End()];
  }

  lemma {:induction false} ChainSurvivesWrite(us: seq<Frame>, from: nat, to: nat, written: seq<byte>, cuts: set<nat>,
                                              p: seq<byte>)
    requires Chain(us, from, to, written, cuts, false) && 0 < |p| && forall k <- cuts :: k <= |written|
    ensures Chain(us, from, to, written + p, cuts + {|written| + |p|}, false)
  {
    if us != [] {
      FrameSurvivesWrite(us[0], written, cuts, p);
      ChainSurvivesWrite(us[1..], us[0].End(), to, written, cuts, p);
    }
  }

  lemma {:induction false} ChainSurvivesFin(us: seq<Frame>, from: nat, to: nat, written: seq<byte>, cuts: set<nat>)
    requires Chain(us, from, to, written, cuts, false)
    ensures Chain(us, from, to, written, cuts, true)
  {
    if us != [] {
      ChainSurvivesFin(us[1..], us[0].End(), to, written, cuts);
    }
  }

  /** Where a list that ends at `to` starts. */
  function Base(us: seq<Frame>, to: nat): nat {
    if us == [] then to else us[0].offset
  }

  /** A cumulative ACK removes a prefix of the list and what is left is again a
      chain, which starts no later than the ACK unless nothing was acknowledged. */
  lemma {:induction false} DropAckedKeepsChain(us: seq<Frame>, ack: nat, from: nat, to: nat,
                                               written: seq<byte>, cuts: set<nat>, finSent: bool)
    requires Chain(us, from, to, written, cuts, finSent)
    ensures Chain(DropAcked(us, ack), Base(DropAcked(us, ack), to), to, written, cuts, finSent)
    ensures from <= Base(DropAcked(us, ack), to) && (Base(DropAcked(us, ack), to) <= ack || DropAcked(us, ack) == us)
    ensures ack >= to ==> DropAcked(us, ack) == []
  {
    if us != [] {
      ChainBounds(us, from, to, written, cuts, finSent);
      if us[0].End() <= ack {
        DropAckedKeepsChain(us[1..], ack, us[0].End(), to, written, cuts, finSent);
      }
    }
  }

  /** An ACK drops every frame it covers, oldest first, and stops at the first it does not. */
  lemma {:induction false} DropAckedIs(us: seq<Frame>, ack: int) returns (k: nat)
    ensures k <= |us| && DropAcked(us, ack) == us[k..]
    ensures forall i :: 0 <= i < k ==> us[i].End() <= ack
    ensures k < |us| ==> us[k].End() > ack
  {
    k := 0;
    if us != [] && us[0].End() <= ack {
      k := DropAckedIs(us[1..], ack);
      k := k + 1;
    }
  }

  /** ACKs compose: after two of them only the larger one matters. */
  lemma {:induction false} DropAckedTwice(us: seq<Frame>, a: int, b: int)
    ensures DropAcked(DropAcked(us, a), b) == DropAcked(us, if a < b then b else a)
  {
    if us != [] && us[0].End() <= a {
      DropAckedTwice(us[1..], a, b);
    }
  }

  function DeliverAll(r: Receiver, limit: nat, us: seq<Frame>): Receiver
    decreases |us|
  {
    if us == [] then r else DeliverAll(Deliver(r, limit, us[0]), limit, us[1..])
  }

  lemma DeliverAllStep(r: Receiver, limit: nat, us: seq<Frame>)
    ensures us == [] ==> DeliverAll(r, limit, us) == r
    ensures us != [] ==> DeliverAll(r, limit, us) == DeliverAll(Deliver(r, limit, us[0]), limit, us[1..])
  {
  }

  /** The position after everything the sender has to get across. */
  function Top(written: seq<byte>, finSent: bool): nat {
    |written| + if finSent then 1 else 0
  }

  /** A frame that starts at or below the acknowledged position is covered by the
      acknowledgement once it has been delivered. */
  lemma DeliverNext(r: Receiver, limit: nat, f: Frame, written: seq<byte>, cuts: set<nat>, finSent: bool)
    requires ReceiverInv(r, written, cuts, finSent) && r.reorder.Some? && IsFrame(f, written, cuts, finSent)
    requires f.offset <= CumulativeAck(r)
    ensures f.End() <= CumulativeAck(Deliver(r, limit, f))
  {
    DeliverKeeps(r, limit, f, written, cuts, finSent);
    if f.Data? && f.offset == r.readOffset {
      AcceptKeeps(r, f.payload, written, cuts, finSent);
      DrainKeeps(Accept(r, f.payload), written, cuts, finSent);
    }
  }

  /** Delivering a chain in order brings the receiver to its end, whatever was
      stashed before and however small the reorder limit. */
  lemma {:induction false} ChainCatchesUp(r: Receiver, limit: nat, us: seq<Frame>, from: nat,
                                          written: seq<byte>, cuts: set<nat>, finSent: bool)
    requires ReceiverInv(r, written, cuts, finSent) && r.reorder.Some?
    requires Chain(us, from, Top(written, finSent), written, cuts, finSent)
    requires from <= CumulativeAck(r)
    ensures ReceiverInv(DeliverAll(r, limit, us), written, cuts, finSent)
    ensures DeliverAll(r, limit, us).readOffset == |written|
    ensures CumulativeAck(DeliverAll(r, limit, us)) == Top(written, finSent)
    decreases |us|
  {
    if us != [] {
      DeliverKeeps(r, limit, us[0], written, cuts, finSent);
      DeliverNext(r, limit, us[0], written, cuts, finSent);
      ChainCatchesUp(Deliver(r, limit, us[0]), limit, us[1..], us[0].End(), written, cuts, finSent);
    }
  }

  /** Draining moves the position forward and leaves the flags alone. */
  lemma {:induction false} DrainSameFlags(r: Receiver)
    requires r.reorder.Some?
    ensures Drain(r).closed == r.closed && Drain(r).sessionClosed == r.sessionClosed && Drain(r).fin == r.fin
    ensures Drain(r).reorder.Some? && Drain(r).readOffset >= r.readOffset
    decreases |r.reorder.value|
  {
    var m: map<nat, seq<byte>> := r.reorder.value;
    if r.readOffset in m {
      SmallerMap(m, r.readOffset);
      DrainSameFlags(Accept(r.(reorder := Some(m - {r.readOffset})), m[r.readOffset]));
    }
  }

  lemma {:induction false} DrainDeaf(r: Receiver)
    requires r.reorder.Some?
    ensures r.Deaf() ==> Drain(r).pushed == r.pushed
    decreases |r.reorder.value|
  {
    var m: map<nat, seq<byte>> := r.reorder.value;
    if r.readOffset in m {
      SmallerMap(m, r.readOffset);
      DrainDeaf(Accept(r.(reorder := Some(m - {r.readOffset})), m[r.readOffset]));
    }
  }

  /** Whatever closes a receiver keeps every later payload from it. */
  lemma DeliverDeaf(r: Receiver, limit: nat, f: Frame)
    ensures r.Deaf() ==> Deliver(r, limit, f).pushed == r.pushed
  {
    if f.Data? && r.reorder.Some? && f.offset == r.readOffset {
      DrainDeaf(Accept(r, f.payload));
    }
  }

  /** No arrival takes back a known FIN or opens a closed end. */
  lemma DeliverSameFlags(r: Receiver, limit: nat, f: Frame)
    ensures Deliver(r, limit, f).closed == r.closed && Deliver(r, limit, f).sessionClosed == r.sessionClosed
    ensures r.fin.Some? ==> Deliver(r, limit, f).fin.Some?
  {
    if f.Data? && f.offset == r.readOffset && r.reorder.Some? {
      DrainSameFlags(Accept(r, f.payload));
    }
  }
}
