/**
 Two channel objects with a network between them: any list of operations on them, from the first
 byte written, in any order (channel.go, ringbuffer.go, flow.go composed).
 */
module Transfer {
  import opened Bytes
  import opened RingQueue
  import opened Ring
  import Arq
  import opened ArqLink
  import C = Channel
  import F = Flow

  /** An operation on a frame or acknowledgement that is not in flight does nothing. */
  datatype Op =
    | Write(b: seq<byte>) | CloseWrite | Grant(d: nat)
    | Deliver(f: Arq.Frame, head: Option<nat>, now: int) | Lose(f: Arq.Frame)
    | Acknowledge | DeliverAck(a: nat) | LoseAck(a: nat)
    | Retransmit(i: nat) | RetransmitAll | SwapTransport
    | Read(room: nat, closing: bool, sessionClosing: bool, late: bool)
    | CloseReceiver(now: int) | CloseSession | LocalClose | PeerGone

  /** An operation that does not close the receiving end. */
  predicate Gentle(op: Op) {
    match op
    case Read(_, closing, sessionClosing, _) => !closing && !sessionClosing
    case _ => !op.CloseReceiver? && !op.CloseSession? && !op.LocalClose? && !op.PeerGone?
  }

  /** The bytes an operation, or a list of them, asks to be written. */
  function Asked(op: Op): seq<byte> {
    if op.Write? then op.b else []
  }

  function AllAsked(ops: seq<Op>): seq<byte> {
    if ops == [] then [] else AllAsked(ops[..|ops| - 1]) + Asked(ops[|ops| - 1])
  }

  lemma NothingAsked()
    ensures AllAsked([]) == []
  {
  }

  lemma AskedSnoc(ops: seq<Op>, i: nat)
    requires i < |ops|
    ensures AllAsked(ops[..i + 1]) == AllAsked(ops[..i]) + Asked(ops[i])
  {
    assert ops[..i + 1][..i] == ops[..i];
  }

  lemma {:induction false} AskedPrefix(ops: seq<Op>, i: nat)
    requires i <= |ops|
    ensures |AllAsked(ops[..i])| <= |AllAsked(ops)|
    decreases |ops| - i
  {
    if i < |ops| {
      AskedSnoc(ops, i);
      AskedPrefix(ops, i + 1);
    } else {
      assert ops[..i] == ops;
    }
  }

  // ---------- values ----------

  /** The source after one frame, or a list of frames, was queued. */
  function QueueOne(s: Source, p: seq<byte>): Source {
    WithWrite(s.(credits := |p|), p).(credits := s.credits)
  }

  function Queued(s: Source, frames: seq<Arq.Frame>): Source {
    if frames == [] then s
    else
      var init, last := frames[..|frames| - 1], frames[|frames| - 1];
      QueueOne(Queued(s, init), if last.Data? then last.payload else [])
  }

  lemma {:induction false} QueuedFields(s: Source, frames: seq<Arq.Frame>, max: nat)
    requires C.Cut(frames, |s.written|, max) && s.snd.writeOffset == |s.written|
    ensures var t := Queued(s, frames);
      && t.written == s.written + C.PayloadOf(frames)
      && t.snd == s.snd.(writeOffset := |t.written|, unacked := s.snd.unacked + frames)
      && t.net == s.net + (set f | f in frames) && t.acks == s.acks && t.gone == s.gone
    decreases |frames|
  {
    if frames != [] {
      var init, last := frames[..|frames| - 1], frames[|frames| - 1];
      QueuedFields(s, init, max);
      var t := Queued(s, init);
      QueueOneFields(t, last);
      hide Queued, QueueOne, C.Cut;
      assert frames == init + [last];
      assert s.written + C.PayloadOf(frames) == (s.written + C.PayloadOf(init)) + last.payload;
      assert s.snd.unacked + frames == (s.snd.unacked + init) + [last];
      assert (set f | f in frames) == (set f | f in init) + {last};
    }
  }

  lemma QueueOneFields(s: Source, f: Arq.Frame)
    requires f.Data? && f.offset == s.snd.writeOffset == |s.written|
    ensures var t := QueueOne(s, f.payload);
      && t.written == s.written + f.payload && t.net == s.net + {f} && t.acks == s.acks && t.gone == s.gone
      && t.snd == s.snd.(writeOffset := |t.written|, unacked := s.snd.unacked + [f])
  {
  }

  /** Frames cut from the stream's end keep the source's invariants, one after the other. */
  lemma {:induction false} QueuedKeeps(s: Source, frames: seq<Arq.Frame>, max: nat, ack: nat)
    requires StreamInv(s) && FramesInv(s) && AckInv(s, ack) && !s.snd.finSent && !s.gone
    requires C.Cut(frames, |s.written|, max)
    ensures var t := Queued(s, frames); StreamInv(t) && FramesInv(t) && AckInv(t, ack)
    decreases |frames|
  {
    if frames != [] {
      var init, last := frames[..|frames| - 1], frames[|frames| - 1];
      QueuedKeeps(s, init, max, ack);
      QueuedFields(s, init, max);
      var t := Queued(s, init);
      hide StreamInv, FramesInv, AckInv, C.Cut;
      Recredit(t, |last.payload|, ack);
      WriteKeepsAll(t.(credits := |last.payload|), last.payload, ack);
      Recredit(WithWrite(t.(credits := |last.payload|), last.payload), t.credits, ack);
    }
  }

  lemma Recredit(s: Source, credits: nat, ack: nat)
    requires StreamInv(s) && FramesInv(s) && AckInv(s, ack)
    ensures var t := s.(credits := credits); StreamInv(t) && FramesInv(t) && AckInv(t, ack)
  {
    hide Arq.IsFrame, Arq.Chain, Arq.Base;
  }

  lemma WriteKeepsAll(s: Source, p: seq<byte>, ack: nat)
    requires StreamInv(s) && FramesInv(s) && AckInv(s, ack) && !s.snd.finSent && !s.gone && 0 < |p| <= s.credits
    ensures var t := WithWrite(s, p); StreamInv(t) && FramesInv(t) && AckInv(t, ack)
  {
    WriteSource(s, p);
    hide StreamInv, FramesInv, Arq.Base;
  }

  lemma {:induction false} ReceiverSurvivesQueue(r: Arq.Receiver, s: Source, frames: seq<Arq.Frame>, max: nat)
    requires StreamInv(s) && FramesInv(s) && AckInv(s, Arq.CumulativeAck(r)) && !s.snd.finSent && !s.gone
    requires Arq.ReceiverInv(r, s.written, s.cuts, false) && C.Cut(frames, |s.written|, max)
    ensures var t := Queued(s, frames); Arq.ReceiverInv(r, t.written, t.cuts, false)
    decreases |frames|
  {
    if frames != [] {
      var init, last := frames[..|frames| - 1], frames[|frames| - 1];
      ReceiverSurvivesQueue(r, s, init, max);
      QueuedKeeps(s, init, max, Arq.CumulativeAck(r));
      QueuedFields(s, init, max);
      var t := Queued(s, init);
      OneMoreReceived(r, t, last.payload);
      hide Arq.ReceiverInv, C.Cut, StreamInv, FramesInv, AckInv;
    }
  }

  lemma OneMoreReceived(r: Arq.Receiver, s: Source, p: seq<byte>)
    requires StreamInv(s) && Arq.ReceiverInv(r, s.written, s.cuts, false) && p != []
    ensures var t := QueueOne(s, p); Arq.ReceiverInv(r, t.written, t.cuts, false)
  {
    MidwaySurvivesWrite(r, s.written, s.cuts, p);
    hide Arq.ReceiverMidway;
  }

  /** The source, the receiver and its stored acknowledgement belong to one stream. */
  ghost predicate Joined(s: Source, r: Arq.Receiver, ackOffset: nat) {
    && StreamInv(s) && FramesInv(s) && AckInv(s, Arq.CumulativeAck(r)) && !s.gone
    && Arq.ReceiverInv(r, s.written, s.cuts, s.snd.finSent)
    && ackOffset <= Arq.CumulativeAck(r)
  }

  lemma JoinedWrite(s: Source, r: Arq.Receiver, a: nat, frames: seq<Arq.Frame>, max: nat)
    requires Joined(s, r, a) && !s.snd.finSent && C.Cut(frames, |s.written|, max)
    ensures Joined(Queued(s, frames), r, a)
  {
    QueuedKeeps(s, frames, max, Arq.CumulativeAck(r));
    ReceiverSurvivesQueue(r, s, frames, max);
    QueuedFields(s, frames, max);
    hide StreamInv, FramesInv, AckInv, Arq.ReceiverInv, Queued, C.Cut;
  }

  lemma JoinedFin(s: Source, r: Arq.Receiver, a: nat)
    requires Joined(s, r, a) && !s.snd.finSent
    ensures Joined(WithFin(s), r, a)
  {
    FinSource(s);
    MidwaySurvivesFin(r, s.written, s.cuts);
    hide StreamInv, FramesInv, Arq.Base, Arq.ReceiverMidway;
  }

  /** The network may lose anything and repeat anything that is unacknowledged. */
  lemma JoinedNet(s: Source, r: Arq.Receiver, a: nat, net: set<Arq.Frame>, acks: set<nat>)
    requires Joined(s, r, a)
    requires forall f <- net :: f in s.net || f in s.snd.unacked
    requires forall x <- acks :: x in s.acks || x == a
    ensures Joined(s.(net := net, acks := acks), r, a)
  {
    hide Arq.IsFrame, Arq.Chain, Arq.Base, Arq.ReceiverInv;
    var t := s.(net := net, acks := acks);
    forall f | f in t.net ensures Stream(t, f) {
      assert Stream(s, f);
    }
  }

  lemma JoinedAck(s: Source, r: Arq.Receiver, a: nat, x: nat)
    requires Joined(s, r, a) && x in s.acks
    ensures Joined(s.(snd := Arq.OnAck(s.snd, x)), r, a)
  {
    AckSource(s, x, Arq.CumulativeAck(r));
    hide StreamInv, FramesInv, AckInv, Arq.ReceiverInv, Arq.DropAcked;
  }

  lemma JoinedDeliver(s: Source, r: Arq.Receiver, a: nat, limit: nat, f: Arq.Frame)
    requires Joined(s, r, a) && f in s.net
    ensures f.Data? ==> f.payload != []
    ensures var t := Arq.Deliver(r, limit, f);
      Joined(s, t, a) && Joined(s, t, Arq.CumulativeAck(t)) && t.reorder.Some? == r.reorder.Some?
    ensures Arq.FinReached(r) ==> Arq.FinReached(Arq.Deliver(r, limit, f))
    ensures Arq.Deliver(r, limit, f).Deaf() == r.Deaf()
  {
    assert Stream(s, f);
    Arq.DeliverKeeps(r, limit, f, s.written, s.cuts, s.snd.finSent);
    hide Arq.Deliver, StreamInv, FramesInv, Arq.ReceiverInv, Arq.CumulativeAck;
  }

  /** Closing and cleaning up lose nothing that was a prefix. */
  lemma JoinedDeafened(s: Source, r: Arq.Receiver, a: nat, t: Arq.Receiver)
    requires Joined(s, r, a) && (r.Deaf() ==> t.Deaf())
    requires t == r.(closed := t.closed, sessionClosed := t.sessionClosed, reorder := t.reorder)
    requires t.reorder == r.reorder || t.reorder.None?
    ensures Joined(s, t, a)
  {
    hide Arq.IsFrame, StreamInv, FramesInv, AckInv;
  }

  // ---------- objects ----------

  class Pair {
    const sender: C.Channel
    const receiver: C.Channel
    const flow: F.StreamFlow
    var net: set<Arq.Frame>
    var acks: set<nat>
    var accepted: seq<byte>      // what Write reported as sent
    var got: seq<byte>           // what Read returned
    var handed: seq<nat>         // allocations that came with the frames delivered
    ghost var cuts: set<nat>

    ghost function Src(): Source
      reads this, sender
    {
      Source(accepted, cuts, sender.Snd(), false, net, acks, 0, 0, 0)
    }

    /** Nobody but the ring itself is in the ring's footprint. */
    ghost predicate Apart()
      reads this, receiver, receiver.ring
    {
      && sender != receiver && sender !in receiver.ring.Repr && this !in receiver.ring.Repr
      && flow !in receiver.ring.Repr && flow.own !in receiver.ring.Repr
      && (flow.session != null ==> flow.session !in receiver.ring.Repr)
      && flow.session != flow.own && sender.maxFrameData > 0
    }

    ghost predicate Valid()
      reads this, sender, receiver, receiver.ring, receiver.ring.Repr
    {
      && Apart() && receiver.Valid() && Joined(Src(), receiver.Rcv(), receiver.ackOffset)
      && got == receiver.taken && (sender.finQueued ==> sender.writeClosed)
      && Accounted()
    }

    /** Every allocation handed over is in the receiver's care, and a closed receiver has nothing left to lose. */
    ghost predicate Accounted()
      reads this`handed, receiver`freed, receiver`reorderMap, receiver`closed, receiver`cleaned, receiver.ring`contents
    {
      && receiver.Allocs() == multiset(handed)
      && (receiver.closed ==> receiver.ring.contents == [] || receiver.cleaned)
    }

    /** The sending end is open and only the stream's own window limits it. */
    ghost predicate Ready()
      reads this, sender
    {
      !sender.closed && !sender.sessionClosed && !sender.writeClosed && flow.session == null
    }

    /** Nobody has closed the receiving end, or it has nothing left to get. */
    ghost predicate Sound()
      reads this, sender, receiver, receiver.ring
    {
      && !receiver.cleaned
      && (|| (!receiver.Rcv().Deaf() && (receiver.readDone ==> Arq.FinReached(receiver.Rcv())))
          || (got == accepted && sender.writeClosed))
    }

    constructor (reorderLimit: nat, ackRatio: nat, ackInterval: nat, maxFrameData: nat, immediateAck: bool,
                 timeout: nat, window: int, session: F.Scope?)
      requires maxFrameData > 0
      ensures Valid() && Sound() && accepted == got == [] && handed == []
      ensures fresh(sender) && fresh(receiver) && fresh(receiver.ring)
      ensures fresh(receiver.ring.Repr) && fresh(flow) && fresh(flow.own) && flow.session == session
      ensures flow.own.sendCredits == (if window <= 0 then 0x10_0000 else window) && (session == null ==> Ready())
    {
      hide RingBuffer.Valid, Joined, C.Payloads, C.Channel.Allocs;
      sender := new C.Channel(reorderLimit, ackRatio, ackInterval, maxFrameData, immediateAck, timeout);
      receiver := new C.Channel(reorderLimit, ackRatio, ackInterval, maxFrameData, immediateAck, timeout);
      flow := new F.StreamFlow(window, session);
      net, acks, accepted, got, handed, cuts := {}, {}, [], [], [], {0};
      new;
      receiver.RingValid();
      JoinedInitially();
    }

    method DoWrite(b: seq<byte>) returns (sent: nat)
      requires Valid()
      modifies this`net, this`accepted, this`cuts, sender`writeOffset, sender`unacked, flow, flow.own, flow.session
      ensures Valid() && sent <= |b| && accepted == old(accepted) + b[..sent] && (sender.writeClosed ==> sent == 0)
      ensures sent < |b| ==> sender.closed || sender.writeClosed || sender.sessionClosed || flow.Available() <= 0
      ensures flow.own.sendCredits == old(flow.own.sendCredits) - sent
    {
      hide Accounted, C.Channel.Valid, C.Channel.Allocs, C.Greedy, C.Piece, Joined, C.PayloadOf, C.Cut,
           RingBuffer.Valid, Queued;
      receiver.RingValid();
      if sender.closed || sender.writeClosed || sender.sessionClosed {
        return 0;
      }
      JoinedOffset(Src(), receiver.Rcv(), receiver.ackOffset);
      var frames, n, failed := sender.Write(b, flow, None);
      sent := n;
      ghost var s := old(Src());
      JoinedWrite(s, receiver.Rcv(), receiver.ackOffset, frames, sender.maxFrameData);
      net, accepted := net + (set f | f in frames), accepted + b[..sent];
      cuts := Queued(s, frames).cuts;
      QueuedIs(s, frames, sender.maxFrameData, Src());
    }

    method DoCloseWrite()
      requires Valid()
      modifies this`net, sender`unacked, sender`finQueued, sender`writeClosed
      ensures Valid() && sender.writeClosed
      ensures !old(sender.writeClosed) ==> sender.finQueued && Arq.Fin(|accepted|) in net
    {
      hide Accounted, C.Channel.Valid, C.Channel.Allocs, RingBuffer.Valid, Joined;
      receiver.RingValid();
      JoinedOffset(Src(), receiver.Rcv(), receiver.ackOffset);
      if sender.writeClosed {
        return;
      }
      JoinedFin(Src(), receiver.Rcv(), receiver.ackOffset);
      var frame := sender.SendFin();
      net := net + {frame};
      assert Src() == WithFin(old(Src()));
    }

    /** The network loses, keeps or repeats. */
    method Shuffle(frames: set<Arq.Frame>, offsets: set<nat>)
      requires Valid()
      requires forall f <- frames :: f in net || f in sender.unacked
      requires forall a <- offsets :: a in acks || a == receiver.ackOffset
      modifies this`net, this`acks
      ensures Valid() && net == frames && acks == offsets
    {
      hide Accounted, C.Channel.Valid, C.Channel.Allocs, RingBuffer.Valid, Joined;
      receiver.RingValid();
      JoinedNet(Src(), receiver.Rcv(), receiver.ackOffset, frames, offsets);
      net, acks := frames, offsets;
    }

    method DoDeliverAck(a: nat)
      requires Valid() && a in acks
      modifies sender`unacked
      ensures Valid() && sender.Snd() == Arq.OnAck(old(sender.Snd()), a)
    {
      hide Accounted, C.Channel.Valid, C.Channel.Allocs, RingBuffer.Valid, Joined, C.Released;
      receiver.RingValid();
      JoinedAck(Src(), receiver.Rcv(), receiver.ackOffset, a);
      var drained := sender.OnAck(a);
      assert Src() == old(Src()).(snd := Arq.OnAck(old(Src()).snd, a));
    }

    /** The objects' part of a delivery. */
    method ReceiveOne(f: Arq.Frame, head: Option<nat>, now: int)
      requires Valid() && f in net
      modifies receiver, receiver.ring.Repr
      ensures Apart() && receiver.Valid() && fresh(receiver.ring.Repr - old(receiver.ring.Repr))
      ensures Joined(Src(), receiver.Rcv(), receiver.ackOffset) && got == receiver.taken && (old(Sound()) ==> Sound())
      ensures receiver.Rcv() == Arq.Deliver(old(receiver.Rcv()), receiver.reorderLimit, f)
      ensures receiver.Allocs() == multiset(handed) + if f.Data? then HeadOf(Buffer(f.payload, head)) else multiset{}
      ensures receiver.closed ==> receiver.ring.contents == [] || receiver.cleaned
    {
      hide C.Channel.Valid, C.Channel.Allocs, C.Channel.Credited, RingBuffer.Valid, Joined, Arq.Deliver,
           Arq.CumulativeAck, C.Payloads, Arq.FinReached, HeadOf;
      receiver.RingValid();
      JoinedDeliver(Src(), receiver.Rcv(), receiver.ackOffset, receiver.reorderLimit, f);
      Arq.DeliverSameFlags(receiver.Rcv(), receiver.reorderLimit, f);
      Arq.DeliverDeaf(receiver.Rcv(), receiver.reorderLimit, f);
      receiver.Receive(f, head, now);
      receiver.RingValid();
      if receiver.closed {
        receiver.EmptyStays(old(receiver.ring.contents));
      }
    }

    method DoDeliver(f: Arq.Frame, head: Option<nat>, now: int)
      requires Valid() && f in net
      modifies this`handed, receiver, receiver.ring.Repr
      ensures Valid() && fresh(receiver.ring.Repr - old(receiver.ring.Repr)) && (old(Sound()) ==> Sound())
      ensures receiver.Rcv() == Arq.Deliver(old(receiver.Rcv()), receiver.reorderLimit, f)
      ensures handed == if f.Data? then Given(old(handed), head) else old(handed)
    {
      hide Accounted, C.Channel.Valid, C.Channel.Allocs, RingBuffer.Valid, Joined, Arq.Deliver, C.Payloads,
           Arq.FinReached;
      receiver.RingValid();
      ReceiveOne(f, head, now);
      receiver.RingValid();
      Credit(if f.Data? && head.Some? then [head.value] else []);
    }

    /** One Read and the books; what it found is as Read says. */
    method ReadOnce(room: nat, closing: bool, sessionClosing: bool, late: bool) returns (res: C.ReadResult)
      requires Valid()
      modifies this`got, receiver`taken, receiver`freed, receiver`closed, receiver`sessionClosed, receiver`drained,
               receiver`credited, receiver.ring, receiver.ring.Repr
      ensures Valid() && receiver.ring.Repr == old(receiver.ring.Repr)
      ensures got == old(got) + if res.Got? then res.data else []
      ensures !closing && !sessionClosing && !old(receiver.Rcv().Deaf()) ==>
        && !receiver.closed && !receiver.sessionClosed && !res.Refused? && (res == C.Got([]) ==> room == 0)
        && (res.EndOfStream? ==> receiver.readDone && got == receiver.pushed)
        && (!res.EndOfStream? ==> receiver.ring.Open())
        && (room > 0 && res.Got? ==>
              && res.data + Content(receiver.ring.contents) == old(Content(receiver.ring.contents))
              && (|res.data| == room || receiver.ring.contents == []))
        && (res.WouldBlock? ==> old(receiver.ring.contents) == [])
    {
      hide C.Channel.Valid, C.Channel.Allocs, RingBuffer.Valid, Joined, C.Payloads, Content, C.NoneEmpty,
           C.NoneEmptyStashed, Allocations, Arq.FinReached;
      receiver.RingValid();
      ghost var before := receiver.Rcv();
      res := receiver.Read(room, closing, sessionClosing, late);
      if res.Got? {
        got := got + res.data;
      }
      JoinedDeafened(Src(), before, receiver.ackOffset, receiver.Rcv());
      receiver.MovedOut();
      receiver.RingValid();
    }

    method DoRead(room: nat, closing: bool, sessionClosing: bool, late: bool) returns (res: C.ReadResult)
      requires Valid()
      modifies this`got, receiver`taken, receiver`freed, receiver`closed, receiver`sessionClosed, receiver`drained,
               receiver`credited, receiver.ring, receiver.ring.Repr
      ensures Valid() && receiver.ring.Repr == old(receiver.ring.Repr)
      ensures got == old(got) + if res.Got? then res.data else []
      ensures !closing && !sessionClosing && old(Sound()) ==> Sound()
      ensures !closing && !sessionClosing && old(Sound()) && |old(got)| + room >= |accepted| == old(receiver.readOffset)
        ==> got == accepted
    {
      hide Accounted, C.Channel.Valid, C.Channel.Allocs, RingBuffer.Valid, Joined, C.Payloads, Content, C.NoneEmpty,
           C.NoneEmptyStashed, Allocations, Arq.FinReached;
      receiver.RingValid();
      ghost var before, queued := receiver.Rcv(), Content(receiver.ring.contents);
      JoinedFinished(Src(), before, receiver.ackOffset);
      PrefixRead();
      res := ReadOnce(room, closing, sessionClosing, late);
      receiver.RingValid();
      SameEnd(before, receiver.Rcv());
      PrefixRead();
      C.ContentOfNothing([]);
      if !closing && !sessionClosing && !before.Deaf() && !res.EndOfStream?
         && |old(got)| + room >= |accepted| == receiver.readOffset
      {
        ReadRest(old(got), queued, if res.Got? then res.data else [], Content(receiver.ring.contents), room, accepted);
      }
    }

    method DoCloseReceiver(now: int)
      requires Valid()
      modifies receiver, receiver.ring, receiver.ring.Repr
      ensures Valid() && receiver.ring.Repr == old(receiver.ring.Repr)
    {
      hide C.Channel.Valid, C.Channel.Allocs, C.Channel.ResetFor, RingBuffer.Valid, Joined, C.Payloads, Content,
           C.NoneEmpty, C.NoneEmptyStashed, Allocations, Arq.QueueFin;
      receiver.RingValid();
      var fin := receiver.Close(now);
      receiver.RingValid();
      JoinedDeafened(Src(), old(receiver.Rcv()), receiver.ackOffset, receiver.Rcv());
    }

    method DoClose(op: Op)
      requires Valid() && (op.CloseSession? || op.LocalClose? || op.PeerGone?)
      modifies receiver, receiver.ring, receiver.ring.Repr
      ensures Valid() && receiver.ring.Repr == old(receiver.ring.Repr)
      ensures op.LocalClose? ==> receiver.cleaned && (!receiver.drainable ==> receiver.ring.contents == [])
    {
      hide C.Channel.Valid, C.Channel.Allocs, RingBuffer.Valid, Joined, C.Payloads, Content, C.NoneEmpty,
           C.NoneEmptyStashed, Allocations;
      receiver.RingValid();
      match op {
        case CloseSession => receiver.sessionClosed := true;
        case LocalClose => receiver.LocalClose();
        case PeerGone => receiver.PeerGone();
      }
      receiver.RingValid();
      JoinedDeafened(Src(), old(receiver.Rcv()), receiver.ackOffset, receiver.Rcv());
    }

    /** The objects' part of a resume. */
    method ResumeBoth(heads: seq<Option<nat>>, now: int) returns (given: seq<nat>)
      requires Valid() && !receiver.cleaned && |heads| == |sender.unacked|
      modifies sender`unacked, receiver, receiver.ring.Repr
      ensures given == C.HeadsOf(old(sender.unacked), heads)
      ensures receiver.Allocs() == multiset(handed) + multiset(given)
      ensures receiver.closed ==> receiver.ring.contents == [] || receiver.cleaned
      ensures Apart() && receiver.Valid() && fresh(receiver.ring.Repr - old(receiver.ring.Repr))
      ensures sender.unacked == [] && receiver.readOffset == |accepted| && got == receiver.taken
      ensures Arq.ReceiverInv(receiver.Rcv(), accepted, cuts, sender.finQueued)
      ensures Arq.CumulativeAck(receiver.Rcv()) == Arq.Top(accepted, sender.finQueued) >= receiver.ackOffset
      ensures sender.finQueued ==> Arq.FinReached(receiver.Rcv())
      ensures receiver.cleaned == old(receiver.cleaned) && receiver.Rcv().Deaf() == old(receiver.Rcv().Deaf())
      ensures receiver.readDone ==> old(receiver.readDone) || Arq.FinReached(receiver.Rcv())
      ensures !receiver.Rcv().Deaf() ==> got + Content(receiver.ring.contents) == accepted
    {
      hide C.Channel.Valid, C.Channel.Allocs, RingBuffer.Valid, Content, C.Payloads, C.NoneEmpty, C.NoneEmptyStashed,
           C.HeadsOf, Arq.FinReached, Joined, Arq.Chain, Arq.ReceiverInv, Arq.CumulativeAck, Arq.IsFrame, Arq.Base,
           StreamInv;
      receiver.RingValid();
      given := C.ListHeads(sender.unacked, heads);
      ResumeReady(Src(), receiver.Rcv(), receiver.ackOffset);
      C.Resume(sender, receiver, heads, now, Arq.Base(sender.unacked, End(Src())), accepted, cuts);
      receiver.RingValid();
      if receiver.closed {
        receiver.EmptyStays(old(receiver.ring.contents));
      }
    }

    /** A new transport and everything unacknowledged again: the receiver has all that was accepted. */
    method DoResume(heads: seq<Option<nat>>, now: int)
      requires Valid() && !receiver.cleaned && |heads| == |sender.unacked|
      modifies this`net, this`acks, this`handed, sender`unacked, receiver, receiver.ring.Repr
      ensures handed == old(handed) + C.HeadsOf(old(sender.unacked), heads)
      ensures Valid() && sender.unacked == [] && receiver.readOffset == |accepted| && got == old(got)
      ensures fresh(receiver.ring.Repr - old(receiver.ring.Repr))
      ensures sender.finQueued ==> Arq.FinReached(receiver.Rcv())
      ensures old(Sound()) ==> Sound()
      ensures !receiver.Rcv().Deaf() ==> got + Content(receiver.ring.contents) == accepted
    {
      hide C.Channel.Valid, C.Channel.Allocs, Accounted, RingBuffer.Valid, Content, C.Payloads, C.NoneEmpty,
           C.NoneEmptyStashed, C.HeadsOf, Arq.FinReached, Joined, Arq.ReceiverInv, Arq.CumulativeAck, StreamInv;
      receiver.RingValid();
      ghost var s := Src();
      ResumeReady(s, receiver.Rcv(), receiver.ackOffset);
      JoinedFinished(s, receiver.Rcv(), receiver.ackOffset);
      var given := ResumeBoth(heads, now);
      receiver.RingValid();
      JoinedResumed(s, receiver.Rcv(), receiver.ackOffset);
      net, acks := {}, {};
      Credit(given);
    }

    method Credit(given: seq<nat>)
      requires Apart() && receiver.Valid() && Joined(Src(), receiver.Rcv(), receiver.ackOffset)
      requires got == receiver.taken && (sender.finQueued ==> sender.writeClosed)
      requires receiver.Allocs() == multiset(handed) + multiset(given)
      requires receiver.closed ==> receiver.ring.contents == [] || receiver.cleaned
      modifies this`handed
      ensures Valid() && handed == old(handed) + given
    {
      hide C.Channel.Valid, C.Channel.Allocs, RingBuffer.Valid, Joined;
      receiver.RingValid();
      handed := handed + given;
    }

    method DoNet(op: Op)
      requires Valid()
      modifies this`net, this`acks, sender`unacked
      ensures Valid()
    {
      hide C.Channel.Valid, C.Channel.Allocs, RingBuffer.Valid, Joined;
      match op {
        case Lose(f) => Shuffle(net - {f}, acks);
        case Acknowledge => Shuffle(net, acks + {receiver.ackOffset});
        case DeliverAck(a) => if a in acks { DoDeliverAck(a); }
        case LoseAck(a) => Shuffle(net, acks - {a});
        case Retransmit(i) => if i < |sender.unacked| { Shuffle(net + {sender.unacked[i]}, acks); }
        case RetransmitAll =>
          var due := sender.RetransmitAllUnacked();
          Shuffle(net + (set f | f in due), acks);
        case SwapTransport => Shuffle({}, {});
        case _ =>
      }
    }

    /** The sending end, and the credit it gets. */
    method DoSend(op: Op)
      requires Valid() && (op.Write? || op.CloseWrite? || op.Grant?)
      modifies this`net, this`accepted, this`cuts, sender`writeOffset, sender`unacked, sender`finQueued,
               sender`writeClosed, flow, flow.own, flow.session
      ensures Valid() && old(accepted) <= accepted && (old(Sound()) ==> Sound())
      ensures !op.CloseWrite? && old(Ready()) ==> Ready()
      ensures old(Ready()) && !op.CloseWrite? && |Asked(op)| <= old(flow.own.sendCredits) ==>
        && accepted == old(accepted) + Asked(op)
        && flow.own.sendCredits >= old(flow.own.sendCredits) - |Asked(op)|
    {
      hide Accounted, RingBuffer.Valid, Joined, C.Channel.Valid, C.Channel.Allocs, Arq.FinReached;
      receiver.RingValid();
      if op.Write? {
        var sent := DoWrite(op.b);
      } else if op.CloseWrite? {
        DoCloseWrite();
      } else {
        flow.own.AddCredits(op.d);
      }
    }

    /** Closing, and what happens in the network. */
    method DoRest(op: Op)
      requires Valid()
      modifies this`net, this`acks, sender`unacked, receiver, receiver.ring, receiver.ring.Repr
      ensures Valid() && receiver.ring.Repr == old(receiver.ring.Repr)
      ensures Gentle(op) && old(Sound()) ==> Sound()
    {
      hide Accounted, RingBuffer.Valid, Joined, C.Channel.Valid, C.Channel.Allocs, Arq.FinReached;
      receiver.RingValid();
      if op.CloseReceiver? {
        DoCloseReceiver(op.now);
      } else if op.CloseSession? || op.LocalClose? || op.PeerGone? {
        DoClose(op);
      } else {
        DoNet(op);
      }
    }

    /** One operation, whichever it is. */
    method Do(op: Op)
      requires Valid()
      modifies this, sender, receiver, receiver.ring, receiver.ring.Repr, flow, flow.own, flow.session
      ensures Valid() && fresh(receiver.ring.Repr - old(receiver.ring.Repr))
      ensures old(accepted) <= accepted && old(got) <= got
      ensures Gentle(op) && old(Sound()) ==> Sound()
      ensures handed ==
        if op.Deliver? && op.f in old(net) && op.f.Data? then Given(old(handed), op.head) else old(handed)
      ensures !op.CloseWrite? && old(Ready()) ==> Ready()
      ensures old(Ready()) && !op.CloseWrite? && |Asked(op)| <= old(flow.own.sendCredits) ==>
        && accepted == old(accepted) + Asked(op)
        && flow.own.sendCredits >= old(flow.own.sendCredits) - |Asked(op)|
    {
      hide Accounted, RingBuffer.Valid, Joined, C.Channel.Valid, C.Channel.Allocs, Arq.FinReached, Given;
      receiver.RingValid();
      if op.Write? || op.CloseWrite? || op.Grant? {
        DoSend(op);
      } else if op.Deliver? {
        if op.f in net {
          DoDeliver(op.f, op.head, op.now);
        }
      } else if op.Read? {
        var res := DoRead(op.room, op.closing, op.sessionClosing, op.late);
      } else {
        DoRest(op);
      }
    }

    /** Any list of operations. */
    method Run(ops: seq<Op>)
      requires Valid()
      modifies this, sender, receiver, receiver.ring, receiver.ring.Repr, flow, flow.own, flow.session
      ensures Valid() && fresh(receiver.ring.Repr - old(receiver.ring.Repr))
      ensures old(accepted) <= accepted && old(got) <= got
      ensures old(Sound()) && (forall op <- ops :: Gentle(op)) ==> Sound()
      ensures old(Ready()) && (forall op <- ops :: !op.CloseWrite?) && |AllAsked(ops)| <= old(flow.own.sendCredits) ==>
        accepted == old(accepted) + AllAsked(ops)
    {
      hide Accounted, RingBuffer.Valid, Joined, C.Channel.Valid, C.Channel.Allocs, Sound, Gentle, AllAsked, Asked;
      AskedPrefix(ops, 0);
      assert AllAsked(ops[..0]) == [] by { NothingAsked(); }
      for i := 0 to |ops|
        invariant Valid() && fresh(receiver.ring.Repr - old(receiver.ring.Repr))
        invariant old(accepted) <= accepted && old(got) <= got
        invariant old(Sound()) && (forall op <- ops :: Gentle(op)) ==> Sound()
        invariant (old(Ready()) && (forall op <- ops :: !op.CloseWrite?)
                   && |AllAsked(ops)| <= old(flow.own.sendCredits)) ==>
          && Ready() && accepted == old(accepted) + AllAsked(ops[..i])
          && flow.own.sendCredits >= old(flow.own.sendCredits) - |AllAsked(ops[..i])|
      {
        AskedSnoc(ops, i);
        AskedPrefix(ops, i + 1);
        Do(ops[i]);
      }
      assert ops[..|ops|] == ops;
    }

    /** What was read is a prefix of what was accepted, and with what is queued it is the received prefix. */
    lemma PrefixRead()
      requires Valid()
      ensures got <= accepted && receiver.readOffset <= |accepted|
      ensures !receiver.Rcv().Deaf() ==> got + Content(receiver.ring.contents) == accepted[..receiver.readOffset]
    {
      hide RingBuffer.Valid, C.Channel.Allocs;
    }
  }

  /** All that is asked for fits the window, and writing is not closed. */
  predicate AllWithin(ops: seq<Op>, window: int) {
    && (forall op <- ops :: !op.CloseWrite?)
    && |AllAsked(ops)| <= if window <= 0 then 0x10_0000 else window
  }

  /**
   From two new channels, whatever operations follow in whatever order: the bytes Read has returned are
   a prefix of the bytes Write has accepted, which is all it was asked to write if that fits the window.
   */
  method ReadIsPrefixOfWritten(ops: seq<Op>, reorderLimit: nat, ackRatio: nat, ackInterval: nat, maxFrameData: nat,
                               immediateAck: bool, timeout: nat, window: int)
    returns (accepted: seq<byte>, got: seq<byte>)
    requires maxFrameData > 0
    ensures got <= accepted
    ensures AllWithin(ops, window) ==> accepted == AllAsked(ops)
  {
    var pair := new Pair(reorderLimit, ackRatio, ackInterval, maxFrameData, immediateAck, timeout, window, null);
    pair.Run(ops);
    pair.PrefixRead();
    accepted, got := pair.accepted, pair.got;
  }

  /**
   From two new channels, whatever is written, lost, repeated, reordered, acknowledged and read in
   whatever order: as long as the receiving end is not closed, one resume and one Read later
   everything Write accepted has been read, once and in order.
   */
  method EverythingArrives(ops: seq<Op>, reorderLimit: nat, ackRatio: nat, ackInterval: nat, maxFrameData: nat,
                           immediateAck: bool, timeout: nat, window: int, now: int)
    returns (accepted: seq<byte>, got: seq<byte>)
    requires maxFrameData > 0 && forall op <- ops :: Gentle(op)
    ensures got == accepted
    ensures AllWithin(ops, window) ==> got == AllAsked(ops)
  {
    hide C.Channel.Valid, C.Channel.Allocs, RingBuffer.Valid, Joined;
    var pair := new Pair(reorderLimit, ackRatio, ackInterval, maxFrameData, immediateAck, timeout, window, null);
    pair.Run(ops);
    pair.DoResume(seq(|pair.sender.unacked|, _ => None), now);
    var room := if |pair.accepted| > |pair.got| then |pair.accepted| - |pair.got| else 0;
    var res := pair.DoRead(room, false, false, false);
    accepted, got := pair.accepted, pair.got;
  }

  /**
   From two new channels, whatever operations follow, closing included: every allocation that came with a frame
   is in the ring, in the reorder map or handed back, exactly once; and once the channel is torn down without
   anything announced as readable, all of them are handed back.
   */
  method EveryBufferReturns(ops: seq<Op>, reorderLimit: nat, ackRatio: nat, ackInterval: nat, maxFrameData: nat,
                            immediateAck: bool, timeout: nat, window: int)
    returns (handed: seq<nat>, freed: seq<nat>, drainable: bool)
    requires maxFrameData > 0
    ensures multiset(freed) <= multiset(handed)
    ensures !drainable ==> multiset(freed) == multiset(handed)
  {
    hide C.Channel.Valid, RingBuffer.Valid, Joined;
    var pair := new Pair(reorderLimit, ackRatio, ackInterval, maxFrameData, immediateAck, timeout, window, null);
    pair.Run(ops);
    pair.DoClose(LocalClose);
    handed, freed, drainable := pair.handed, pair.receiver.freed, pair.receiver.drainable;
    pair.receiver.TornDown();
  }

  lemma ResumeReady(s: Source, r: Arq.Receiver, a: nat)
    requires Joined(s, r, a)
    ensures var from := Arq.Base(s.snd.unacked, End(s));
      && Arq.ReceiverInv(r, s.written, s.cuts, s.snd.finSent)
      && Arq.Chain(s.snd.unacked, from, Arq.Top(s.written, s.snd.finSent), s.written, s.cuts, s.snd.finSent)
      && from <= Arq.CumulativeAck(r) && a <= Arq.CumulativeAck(r) && StreamInv(s)
  {
  }

  lemma SameEnd(r: Arq.Receiver, t: Arq.Receiver)
    requires r.fin == t.fin && r.readOffset == t.readOffset
    ensures Arq.FinReached(r) == Arq.FinReached(t)
  {
  }

  lemma ReadRest(got: seq<byte>, queued: seq<byte>, data: seq<byte>, left: seq<byte>, room: nat, accepted: seq<byte>)
    requires got + queued == accepted[..|accepted|] && |got| + room >= |accepted|
    requires data + left == queued && (|data| >= room || left == [])
    ensures got + data == accepted
  {
    assert |data| + |left| == |queued| && |got| + |queued| == |accepted|;
    assert left == [];
    assert data + [] == data && accepted[..|accepted|] == accepted;
  }

  lemma JoinedFinished(s: Source, r: Arq.Receiver, a: nat)
    requires Joined(s, r, a)
    ensures !r.Deaf() && Arq.FinReached(r) ==> r.pushed == s.written && s.snd.finSent
  {
  }

  lemma JoinedOffset(s: Source, r: Arq.Receiver, a: nat)
    requires Joined(s, r, a)
    ensures s.snd.writeOffset == |s.written|
  {
  }

  lemma QueuedIs(s: Source, frames: seq<Arq.Frame>, max: nat, t: Source)
    requires C.Cut(frames, |s.written|, max) && s.snd.writeOffset == |s.written|
    requires t.written == s.written + C.PayloadOf(frames) && t.cuts == Queued(s, frames).cuts
    requires t.snd == s.snd.(writeOffset := |t.written|, unacked := s.snd.unacked + frames)
    requires t == s.(written := t.written, cuts := t.cuts, snd := t.snd, net := s.net + set f | f in frames)
    ensures t == Queued(s, frames)
  {
    QueuedFields(s, frames, max);
    QueuedCredits(s, frames);
    hide Queued, C.Cut, C.PayloadOf;
  }

  lemma JoinedResumed(s: Source, r: Arq.Receiver, a: nat)
    requires StreamInv(s) && !s.gone && Arq.ReceiverInv(r, s.written, s.cuts, s.snd.finSent)
    requires Arq.CumulativeAck(r) == End(s) && a <= End(s)
    ensures Joined(s.(snd := s.snd.(unacked := []), net := {}, acks := {}), r, a)
  {
  }

  lemma JoinedInitially()
    ensures Joined(Source([], {0}, Arq.NewSender, false, {}, {}, 0, 0, 0), Arq.NewReceiver, 0)
  {
  }

  lemma {:induction false} QueuedCredits(s: Source, frames: seq<Arq.Frame>)
    ensures var t := Queued(s, frames);
      && t.credits == s.credits && t.flying == s.flying && t.granted == s.granted && t.snd.finSent == s.snd.finSent
    decreases |frames|
  {
    if frames != [] {
      QueuedCredits(s, frames[..|frames| - 1]);
    }
  }
}
