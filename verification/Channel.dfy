/**
 One end of a reliable channel as the program keeps it (channel.go): mutable offsets, the
 retransmission list, the reorder map and the receive ring, each operation proved to do to
 them what the protocol's step functions do.
 */
module Channel {
  import opened Bytes
  import opened RingQueue
  import opened Ring
  import Arq
  import F = Flow

  /** The protocol's view of the stashed frames. */
  function Payloads(m: map<nat, Buffer>): map<nat, seq<byte>> {
    map k | k in m :: m[k].buf
  }

  /** The allocations of the stashed frames. */
  ghost function StashedHeads(m: map<nat, Buffer>): multiset<nat> {
    if m == map[] then multiset{}
    else
      var k :| k in m;
      HeadOf(m[k]) + StashedHeads(m - {k})
  }

  lemma StashedHeadsFirst(m: map<nat, Buffer>) returns (k: nat)
    requires m != map[]
    ensures k in m && StashedHeads(m) == HeadOf(m[k]) + StashedHeads(m - {k})
  {
    hide HeadOf;
    k :| k in m && StashedHeads(m) == HeadOf(m[k]) + StashedHeads(m - {k});
  }

  lemma {:induction false} StashedHeadsRemove(m: map<nat, Buffer>, k: nat)
    requires k in m
    ensures StashedHeads(m) == HeadOf(m[k]) + StashedHeads(m - {k})
    decreases |m|
  {
    hide StashedHeads, HeadOf;
    var first := StashedHeadsFirst(m);
    if first != k {
      StashedHeadsRemove(m - {first}, k);
      StashedHeadsRemove(m - {k}, first);
      var rest := m - {first} - {k};
      assert rest == m - {k} - {first};
      Swapped(HeadOf(m[first]), HeadOf(m[k]), StashedHeads(rest));
    }
  }

  lemma Regrouped(a: multiset<nat>, b: multiset<nat>, c: multiset<nat>)
    ensures a + (b + c) == a + b + c
  {
  }

  lemma Swapped(a: multiset<nat>, b: multiset<nat>, c: multiset<nat>)
    ensures a + (b + c) == b + (a + c)
  {
  }

  lemma StashedHeadsAdd(m: map<nat, Buffer>, k: nat, b: Buffer)
    ensures k !in m ==> StashedHeads(m[k := b]) == StashedHeads(m) + HeadOf(b)
    ensures StashedHeads(map[]) == multiset{}
  {
    if k !in m {
      StashedHeadsRemove(m[k := b], k);
      assert m[k := b] - {k} == m;
    }
  }

  /** What acknowledging keeps: a frame queued, how many ever were, the timer, and the frames counted. */
  datatype AckState = AckState(pending: bool, queued: nat, armed: bool, packets: nat)

  /** What resetting the peer keeps: when and how often, and whether reading is over. */
  datatype ResetState = ResetState(last: int, count: nat, over: bool)

  class Channel {
    const ring: RingBuffer
    const reorderLimit: nat
    const ackRatio: nat
    const ackInterval: nat
    const maxFrameData: nat
    const immediateAck: bool
    const retransmitTimeout: nat

    var writeOffset: nat
    var unacked: seq<Arq.Frame>
    var finQueued: bool
    var writeClosed: bool

    var readOffset: nat
    var reorderMap: map<nat, Buffer>
    var cleaned: bool                 // the reorder map is nil
    var hasFin: bool
    var finOffset: nat
    var closed: bool
    var sessionClosed: bool           // the session's flag, as this channel sees it
    var drainable: bool
    var readDone: bool
    var drained: bool                 // the one discarding of the ring has happened

    var ackOffset: nat                // the last offset stored for acknowledgement
    var ackPending: bool              // an acknowledgement frame is queued
    var acksQueued: nat
    var timerArmed: bool              // the delayed acknowledgement's timer
    var inOrderPackets: nat
    var lastReset: int
    var resets: nat                   // RST frames asked for
    var credited: nat                 // session credit given back for bytes nobody will read
    var freed: seq<nat>               // allocations handed back

    ghost var pushed: seq<byte>       // everything the ring ever took
    ghost var taken: seq<byte>        // everything Read ever returned

    ghost predicate Valid()
      reads this`taken, this`pushed, this`drained, this`reorderMap, this`cleaned, ring, ring.Repr
    {
      && this !in ring.Repr && ring.Valid()
      && taken <= pushed
      && (ring.Open() ==> taken + Content(ring.contents) == pushed)
      && (!ring.Open() ==> ring.contents == [])
      && (drained ==> !ring.Open())
      && NoneEmpty(ring.contents) && NoneEmptyStashed(reorderMap) && (cleaned ==> reorderMap == map[])
    }

    /** Every allocation in this channel's care: handed back, queued in the ring, or stashed. */
    ghost function Allocs(): multiset<nat>
      reads this`freed, this`reorderMap, ring`contents
    {
      multiset(freed) + multiset(Allocations(ring.contents)) + StashedHeads(reorderMap)
    }

    twostate lemma GaveBack(b: Buffer)
      requires freed == Given(old(freed), b.head)
      requires reorderMap == old(reorderMap) && ring.contents == old(ring.contents)
      ensures Allocs() == old(Allocs()) + HeadOf(b)
    {
      hide Allocations, StashedHeads;
      GivenCounts(old(freed), b);
    }

    twostate lemma Enqueued(b: Buffer)
      requires freed == old(freed) && reorderMap == old(reorderMap) && ring.contents == old(ring.contents) + [b]
      ensures Allocs() == old(Allocs()) + HeadOf(b)
    {
      hide StashedHeads;
      AllocationsSnoc(old(ring.contents), b);
      hide Allocations;
    }

    twostate lemma UnstashedOne(k: nat)
      requires freed == old(freed) && ring.contents == old(ring.contents)
      requires k in old(reorderMap) && reorderMap == old(reorderMap) - {k}
      ensures old(Allocs()) == Allocs() + HeadOf(old(reorderMap)[k])
    {
      hide Allocations, StashedHeads;
      StashedHeadsRemove(old(reorderMap), k);
    }

    twostate lemma MovedOut()
      requires freed + Allocations(ring.contents) == old(freed + Allocations(ring.contents))
      requires reorderMap == old(reorderMap)
      ensures Allocs() == old(Allocs())
    {
      hide Allocations, StashedHeads;
      assert multiset(freed + Allocations(ring.contents)) == multiset(freed) + multiset(Allocations(ring.contents));
      assert multiset(old(freed + Allocations(ring.contents)))
          == multiset(old(freed)) + multiset(old(Allocations(ring.contents)));
    }

    twostate lemma StashFreed()
      requires multiset(freed) == multiset(old(freed)) + StashedHeads(old(reorderMap)) && reorderMap == map[]
      requires ring.contents == old(ring.contents)
      ensures Allocs() == old(Allocs())
    {
      hide Allocations, StashedHeads;
      StashedHeadsAdd(map[], 0, Buffer([], None));
    }

    twostate lemma RingDropped()
      requires freed == old(freed) && reorderMap == old(reorderMap) && ring.contents == []
      ensures Allocs() + multiset(old(Allocations(ring.contents))) == old(Allocs())
    {
      hide Allocations, StashedHeads;
      NoAllocations();
    }

    lemma RingValid()
      requires Valid()
      ensures ring.Valid() && this !in ring.Repr
      ensures ring.Open() ==> taken + Content(ring.contents) == pushed
    {
      hide RingBuffer.Valid, Content;
    }

    /** A ring that takes nothing stays empty. */
    twostate lemma EmptyStays(was: seq<Buffer>)
      requires old(Valid()) && Valid() && was == old(ring.contents)
      requires pushed == old(pushed) && taken == old(taken) && ring.Open() == old(ring.Open())
      ensures was == [] ==> ring.contents == []
    {
      hide RingBuffer.Valid;
      ContentOfNothing(ring.contents);
    }

    /** Once the map is gone and the ring is empty, everything has been handed back. */
    lemma TornDown()
      requires Valid()
      ensures multiset(freed) <= Allocs()
      ensures cleaned && ring.contents == [] ==> multiset(freed) == Allocs()
    {
      hide RingBuffer.Valid, Content;
      NoAllocations();
      StashedHeadsAdd(map[], 0, Buffer([], None));
    }

    ghost function Snd(): Arq.Sender
      reads this
    {
      Arq.Sender(writeOffset, unacked, finQueued)
    }

    /** The protocol's view of the receiver; a closed ring takes as little as a closed channel. */
    ghost function Rcv(): Arq.Receiver
      reads this, ring
    {
      Arq.Receiver(readOffset, if cleaned then None else Some(Payloads(reorderMap)),
                   if hasFin then Some(finOffset) else None, closed || !ring.Open(), sessionClosed, pushed)
    }

    constructor (reorderLimit: nat, ackRatio: nat, ackInterval: nat, maxFrameData: nat, immediateAck: bool,
                 retransmitTimeout: nat)
      ensures Valid() && fresh(ring) && fresh(ring.Repr)
      ensures Snd() == Arq.NewSender && Rcv() == Arq.NewReceiver && taken == [] && ackOffset == 0
      ensures !readDone && !drainable && !writeClosed && !drained && !ackPending && !timerArmed
      ensures freed == [] && credited == 0 && resets == 0 && acksQueued == 0 && inOrderPackets == 0 && lastReset == 0
      ensures Allocs() == multiset{} && ring.contents == []
      ensures this.reorderLimit == reorderLimit && this.maxFrameData == maxFrameData
    {
      hide RingBuffer.Valid;
      ring := new RingBuffer(8);
      this.reorderLimit, this.ackRatio, this.ackInterval := reorderLimit, ackRatio, ackInterval;
      this.maxFrameData, this.immediateAck, this.retransmitTimeout := maxFrameData, immediateAck, retransmitTimeout;
      writeOffset, unacked, finQueued, writeClosed := 0, [], false, false;
      readOffset, reorderMap, cleaned, hasFin, finOffset := 0, map[], false, false, 0;
      closed, sessionClosed, drainable, readDone, drained := false, false, false, false, false;
      ackOffset, ackPending, acksQueued, timerArmed, inOrderPackets := 0, false, 0, false, 0;
      lastReset, resets, credited, freed := 0, 0, 0, [];
      pushed, taken := [], [];
      NoAllocations();
    }

    // ---------- sending ----------

    /**
     A frame joins the stream and the list. If the session dies before it is queued, its credit goes
     back to both windows; the frame keeps its place in the stream.
     */
    method QueueData(payload: seq<byte>, accepted: bool, flow: F.StreamFlow) returns (frame: Arq.Frame)
      requires flow.session != flow.own
      modifies this`writeOffset, this`unacked, flow, flow.own, flow.session
      ensures Snd() == Arq.QueueData(old(Snd()), payload)
      ensures frame == Arq.Data(old(writeOffset), payload) && unacked == old(unacked) + [frame]
      ensures writeOffset == old(writeOffset) + |payload|
      ensures var back := if accepted then 0 else |payload|;
        && flow.own.sendCredits == old(flow.own.sendCredits) + back
        && (flow.session != null ==> flow.session.sendCredits == old(flow.session.sendCredits) + back)
      ensures flow.Untouched() && flow.token == (old(flow.token) || (!accepted && payload != []))
    {
      writeOffset := writeOffset + |payload|;
      frame := Arq.Data(writeOffset - |payload|, payload);
      unacked := unacked + [frame];
      if !accepted {
        flow.Refund(|payload|);
      }
    }

    /**
     Cuts the caller's bytes into frames as credit allows; the session may die at the queueing of
     frame number `failAt`. What is reported as sent is exactly the frames queued, every frame is
     non-empty and within the frame size, both windows pay for every byte sent once, and the call
     stops short only when refused, when the session dies, or when a window is used up.
     */
    method Write(b: seq<byte>, flow: F.StreamFlow, failAt: Option<nat>)
      returns (frames: seq<Arq.Frame>, sent: nat, failed: bool)
      requires flow.session != flow.own && maxFrameData > 0
      modifies this`writeOffset, this`unacked, flow, flow.own, flow.session
      ensures sent <= |b| && PayloadOf(frames) == b[..sent]
      ensures Cut(frames, old(writeOffset), maxFrameData)
      ensures !failed ==> unacked == old(unacked) + frames && writeOffset == old(writeOffset) + sent
      ensures failed ==> failAt == Some(|frames|)
      ensures !failed && failAt.Some? ==> |frames| <= failAt.value
      ensures failed ==>
        var p := Piece(b, sent, maxFrameData, Left(old(Credit(flow)), sent));
        && unacked == old(unacked) + frames + [Arq.Data(old(writeOffset) + sent, p)]
        && writeOffset == old(writeOffset) + sent + |p| && p != []
      ensures Greedy(frames, b, maxFrameData, old(Credit(flow)))
      ensures flow.own.sendCredits == old(flow.own.sendCredits) - sent && flow.Untouched()
      ensures flow.session != null ==> flow.session.sendCredits == old(flow.session.sendCredits) - sent
      ensures sent < |b| ==> closed || writeClosed || sessionClosed || failed || flow.Available() <= 0
      ensures closed || writeClosed || sessionClosed ==> sent == 0 && !failed
    {
      CutNone(writeOffset, maxFrameData);
      hide PayloadOf, Cut, Greedy, Piece;
      frames, sent, failed := [], 0, false;
      ghost var credit := Credit(flow);
      NoneGreedy(b, maxFrameData, credit);
      if closed || writeClosed || sessionClosed {
        return;
      }
      while sent < |b|
        invariant sent <= |b| && PayloadOf(frames) == b[..sent] && !failed
        invariant failAt.Some? ==> |frames| <= failAt.value
        invariant unacked == old(unacked) + frames && writeOffset == old(writeOffset) + sent
        invariant Cut(frames, old(writeOffset), maxFrameData) && Greedy(frames, b, maxFrameData, credit)
        invariant flow.own.sendCredits == old(flow.own.sendCredits) - sent && flow.Untouched()
        invariant flow.session != null ==> flow.session.sendCredits == old(flow.session.sendCredits) - sent
        decreases |b| - sent
      {
        assert flow.Available() == Left(credit, sent);
        var payload := NextPiece(b, sent, flow);
        if payload == [] {
          return;
        }
        CutSnoc(frames, old(writeOffset), maxFrameData, payload);
        GreedySnoc(frames, b, maxFrameData, credit, Arq.Data(writeOffset, payload));
        failed := failAt == Some(|frames|);
        var frame := QueueData(payload, !failed, flow);
        Regroup(old(unacked), frames, frame);
        if failed {
          return;
        }
        assert b[..sent] + payload == b[..sent + |payload|];
        frames := frames + [frame];
        sent := sent + |payload|;
      }
    }

    /** Takes the credit for the next frame's bytes: none exactly when a window is used up. */
    method NextPiece(b: seq<byte>, sent: nat, flow: F.StreamFlow) returns (payload: seq<byte>)
      requires sent < |b| && flow.session != flow.own && maxFrameData > 0
      modifies flow.own, flow.session
      ensures payload == Piece(b, sent, maxFrameData, old(flow.Available())) && flow.Untouched()
      ensures payload == [] <==> old(flow.Available()) <= 0
      ensures |payload| <= maxFrameData && sent + |payload| <= |b| && payload == b[sent..sent + |payload|]
      ensures flow.own.sendCredits == old(flow.own.sendCredits) - |payload|
      ensures flow.session != null ==> flow.session.sendCredits == old(flow.session.sendCredits) - |payload|
    {
      var desired := if |b| - sent > maxFrameData then maxFrameData else |b| - sent;
      var r := flow.AcquireCredits(desired, false);
      if r.MustWait? {
        return [];
      }
      payload := b[sent..sent + r.n];
    }

    method SendFin() returns (frame: Arq.Frame)
      modifies this`unacked, this`finQueued, this`writeClosed
      ensures Snd() == Arq.QueueFin(old(Snd())) && writeClosed
      ensures frame == Arq.Fin(writeOffset) && unacked == old(unacked) + [frame]
    {
      writeClosed := true;
      frame := Arq.Fin(writeOffset);
      unacked := unacked + [frame];
      finQueued := true;
    }

    /** A cumulative acknowledgement releases the frames that end at or below it, oldest first. */
    method OnAck(ack: nat) returns (drained: bool)
      modifies this`unacked
      ensures Snd() == Arq.OnAck(old(Snd()), ack)
      ensures drained <==> old(unacked) != [] && unacked == []
      ensures exists k :: 0 <= k <= |old(unacked)| && Released(old(unacked), unacked, k, ack)
    {
      var idx := 0;
      while idx < |unacked| && unacked[idx].End() <= ack
        invariant 0 <= idx <= |unacked| && unacked == old(unacked)
        invariant Arq.DropAcked(unacked[idx..], ack) == Arq.DropAcked(old(unacked), ack)
        invariant forall i :: 0 <= i < idx ==> unacked[i].End() <= ack
      {
        assert unacked[idx..][1..] == unacked[idx + 1..];
        idx := idx + 1;
      }
      assert unacked[idx..] == Arq.DropAcked(old(unacked), ack);
      drained := idx > 0 && idx == |unacked|;
      unacked := unacked[idx..];
      assert Released(old(unacked), unacked, idx, ack);
    }

    /** The frames put on a new transport: everything unacknowledged, in order. */
    method RetransmitAllUnacked() returns (due: seq<Arq.Frame>)
      ensures due == unacked
    {
      due := [];
      for i := 0 to |unacked|
        invariant due == unacked[..i]
      {
        due := due + [unacked[i]];
      }
    }

    // ---------- receiving ----------

    method CumulativeAck() returns (ack: nat)
      ensures ack == Arq.CumulativeAck(Rcv())
    {
      if hasFin && readOffset >= finOffset {
        return finOffset + 1;
      }
      return readOffset;
    }

    /**
     An open ring takes the buffer, unless the channel or its session is closed: then it goes straight
     back and is credited. A ring closed meanwhile hands it back too.
     */
    method FeedPayload(b: Buffer) returns (refused: bool)
      requires Valid() && b.buf != []
      modifies this`pushed, this`freed, this`credited, ring.Repr
      ensures Valid() && fresh(ring.Repr - old(ring.Repr)) && ring.Open() == old(ring.Open())
      ensures refused == (closed || sessionClosed)
      ensures pushed == if Rcv().Deaf() then old(pushed) else old(pushed) + b.buf
      ensures freed == if Rcv().Deaf() then Given(old(freed), b.head) else old(freed)
      ensures credited == old(credited) + if refused then |b.buf| else 0
      ensures Allocs() == old(Allocs()) + HeadOf(b)
    {
      hide RingBuffer.Valid, NoneEmptyStashed, Allocs, HeadOf;
      refused := closed || sessionClosed;
      if refused {
        freed := Given(freed, b.head);
        credited := credited + |b.buf|;
        GaveBack(b);
        return;
      }
      ContentSnoc(ring.contents, b);
      ghost var before := Content(ring.contents);
      var full := ring.Push(b);
      if full {
        freed := Given(freed, b.head);
        GaveBack(b);
      } else {
        Enqueued(b);
        pushed := pushed + b.buf;
        assert taken + (before + b.buf) == (taken + before) + b.buf;
      }
    }

    /** Every position moved over is in the ring or credited, as long as the ring itself is open. */
    ghost function Owed(): int
      reads this`pushed, this`credited, this`readOffset
    {
      |pushed| + credited - readOffset
    }

    /** What was credited since: every position moved over, if the channel or its session is closed. */
    ghost predicate Credited(before: nat, from: nat)
      reads this`credited, this`readOffset, this`closed, this`sessionClosed
    {
      credited == before + if closed || sessionClosed then readOffset - from else 0
    }

    /** One buffer in order: the position moves past it whether or not anyone will read it. */
    method AcceptNext(b: Buffer) returns (refused: bool)
      requires Valid() && b.buf != []
      modifies this`readOffset, this`pushed, this`freed, this`credited, ring.Repr
      ensures Valid() && fresh(ring.Repr - old(ring.Repr)) && ring.Open() == old(ring.Open())
      ensures Rcv() == Arq.Accept(old(Rcv()), b.buf) && refused == (closed || sessionClosed)
      ensures refused || ring.Open() ==> Owed() == old(Owed())
      ensures freed == if Rcv().Deaf() then Given(old(freed), b.head) else old(freed)
      ensures credited == old(credited) + (if refused then |b.buf| else 0) && readOffset == old(readOffset) + |b.buf|
      ensures Allocs() == old(Allocs()) + HeadOf(b)
    {
      hide Content, RingBuffer.Valid, NoneEmpty, NoneEmptyStashed, Allocs, HeadOf;
      refused := FeedPayload(b);
      readOffset := readOffset + |b.buf|;
    }

    /** Hands over every stashed frame that has become the next one. */
    method DrainReorder()
      requires Valid() && !cleaned
      modifies this`readOffset, this`pushed, this`freed, this`credited, this`reorderMap, ring.Repr
      ensures Valid() && fresh(ring.Repr - old(ring.Repr)) && ring.Open() == old(ring.Open())
      ensures Rcv() == Arq.Drain(old(Rcv()))
      ensures closed || sessionClosed || ring.Open() ==> Owed() == old(Owed())
      ensures !Rcv().Deaf() ==> freed == old(freed)
      ensures Allocs() == old(Allocs()) && Credited(old(credited), old(readOffset))
    {
      hide Channel.Valid, Content, Arq.Accept, Payloads, RingBuffer.Valid, NoneEmpty, NoneEmptyStashed, Allocs, HeadOf;
      RingValid();
      while readOffset in reorderMap
        invariant Valid() && fresh(ring.Repr - old(ring.Repr)) && ring.Open() == old(ring.Open())
        invariant this !in ring.Repr
        invariant Arq.Drain(Rcv()) == Arq.Drain(old(Rcv()))
        invariant closed || sessionClosed || ring.Open() ==> Owed() == old(Owed())
        invariant !Rcv().Deaf() ==> freed == old(freed)
        invariant Allocs() == old(Allocs()) && Credited(old(credited), old(readOffset))
        decreases |reorderMap|
      {
        ghost var before := Rcv();
        var next := reorderMap[readOffset];
        PayloadsRemove(reorderMap, readOffset);
        Unstash(readOffset);
        var refused := AcceptNext(next);
        RingValid();
        DrainStep(before, Rcv());
      }
      PayloadsRemove(reorderMap, readOffset);
      NothingNext(Rcv());
    }

    method Unstash(k: nat)
      requires Valid() && k in reorderMap && !cleaned
      modifies this`reorderMap
      ensures Valid() && reorderMap == old(reorderMap) - {k} && |reorderMap| < |old(reorderMap)|
      ensures old(reorderMap)[k].buf != []
      ensures old(Allocs()) == Allocs() + HeadOf(old(reorderMap)[k])
    {
      hide Content, RingBuffer.Valid, Allocs, HeadOf;
      Arq.SmallerMap(reorderMap, k);
      reorderMap := reorderMap - {k};
      UnstashedOne(k);
    }

    ghost function Acks(): AckState
      reads this`ackPending, this`acksQueued, this`timerArmed, this`inOrderPackets
    {
      AckState(ackPending, acksQueued, timerArmed, inOrderPackets)
    }

    /** An acknowledgement is on its way: one more frame unless one was queued already. */
    ghost predicate AckedAtOnce(before: AckState)
      reads this`ackPending, this`acksQueued, this`timerArmed, this`sessionClosed
    {
      && !timerArmed && ackPending == (before.pending || !sessionClosed)
      && acksQueued == before.queued + if !before.pending && !sessionClosed then 1 else 0
    }

    /** It may wait: for the frame already queued, for the timer, or for what follows the queued data. */
    ghost predicate AckDelayed(before: AckState)
      reads this`ackPending, this`acksQueued, this`timerArmed, this`sessionClosed, ring
    {
      if !before.pending && ackInterval == 0 then AckedAtOnce(before)
      else
        && ackPending == before.pending && acksQueued == before.queued
        && timerArmed == (before.armed || (!ackPending && ring.Backlog() == 0))
    }

    /** An in-order frame of that length is acknowledged at once when it completes the stream, on every
        ackRatio-th, or when it is large and so configured; otherwise it may wait. */
    ghost predicate AckedInOrder(before: AckState, length: nat)
      reads this, ring
    {
      var counted := !Arq.FinReached(Rcv()) && ackRatio > 1;
      && inOrderPackets == (if counted then (before.packets + 1) % 0x1_0000_0000 else before.packets)
      && (if !counted || inOrderPackets % ackRatio == 0 || (immediateAck && length >= maxFrameData)
          then AckedAtOnce(before) else AckDelayed(before))
    }

    /** A peer that writes into the void was told, if asked for: not once reading was over, and not more
        often than the timeout unless forced. */
    ghost predicate ResetFor(before: ResetState, asked: bool, force: bool, now: int)
      reads this`lastReset, this`resets, this`sessionClosed
    {
      var due := asked && !before.over && (force || now - before.last >= retransmitTimeout);
      && lastReset == (if due then now else before.last)
      && resets == before.count + if due && !sessionClosed then 1 else 0
    }

    ghost function Resets(): ResetState
      reads this`lastReset, this`resets, this`readDone
    {
      ResetState(lastReset, resets, readDone)
    }

    /** Stores the offset to acknowledge; one frame is queued unless one is already, or the session is closed. */
    method SendAck(offset: nat)
      modifies this`ackOffset, this`ackPending, this`acksQueued, this`timerArmed
      ensures ackOffset == offset && AckedAtOnce(old(Acks()))
    {
      timerArmed := false;
      ackOffset := offset;
      if ackPending {
        return;
      }
      if !sessionClosed {
        ackPending := true;
        acksQueued := acksQueued + 1;
      }
    }

    /**
     Stores the offset and promises an acknowledgement: by the frame already queued, at once without a
     delay, by the timer, or, if data is waiting in the ring, by whatever arrives next.
     */
    method ScheduleDelayedAck(offset: nat)
      requires ring.Valid() && this !in ring.Repr
      modifies this`ackOffset, this`ackPending, this`acksQueued, this`timerArmed
      ensures ackOffset == offset && AckDelayed(old(Acks()))
      ensures ackPending || timerArmed || sessionClosed || !ring.Open() || ring.contents != []
    {
      hide RingBuffer.Valid;
      ackOffset := offset;
      if ackPending {
        return;
      }
      if ackInterval == 0 {
        SendAck(offset);
        return;
      }
      var n := ring.Length();
      if n > 0 {
        return;
      }
      timerArmed := true;
    }

    /** RST to a peer that writes into the void: not once reading is over, and not too often unless forced. */
    method ResetPeer(force: bool, now: int)
      modifies this`lastReset, this`resets
      ensures ResetFor(old(Resets()), true, force, now)
    {
      if readDone {
        return;
      }
      if !force && now - lastReset < retransmitTimeout {
        return;
      }
      lastReset := now;
      if !sessionClosed {
        resets := resets + 1;
      }
    }

    /** Whether an in-order frame is acknowledged at once: always when it completes the stream. */
    method CountForAck(length: nat, finished: bool) returns (now: bool)
      modifies this`inOrderPackets
      ensures finished || ackRatio <= 1 ==> now && inOrderPackets == old(inOrderPackets)
      ensures !finished && ackRatio > 1 ==>
        && inOrderPackets == (old(inOrderPackets) + 1) % 0x1_0000_0000
        && (now <==> inOrderPackets % ackRatio == 0 || (immediateAck && length >= maxFrameData))
    {
      if finished || ackRatio <= 1 {
        return true;
      }
      inOrderPackets := (inOrderPackets + 1) % 0x1_0000_0000;
      now := inOrderPackets % ackRatio == 0 || (length >= maxFrameData && immediateAck);
    }

    /** The frame at the receiver's position. */
    method FeedInOrder(b: Buffer, now: int)
      requires Valid() && !cleaned && b.buf != []
      modifies this`readOffset, this`pushed, this`freed, this`credited, this`reorderMap, this`lastReset, this`resets,
               this`ackOffset, this`ackPending, this`acksQueued, this`timerArmed, this`inOrderPackets, this`readDone,
               this`drainable, ring.Repr
      ensures Valid() && fresh(ring.Repr - old(ring.Repr)) && ring.Open() == old(ring.Open())
      ensures Rcv() == Arq.Drain(Arq.Accept(old(Rcv()), b.buf))
      ensures closed || sessionClosed || ring.Open() ==> Owed() == old(Owed())
      ensures !Rcv().Deaf() ==> freed == old(freed) && resets == old(resets)
      ensures Allocs() == old(Allocs()) + HeadOf(b) && Credited(old(credited), old(readOffset))
      ensures ResetFor(old(Resets()), closed || sessionClosed, false, now) && AckedInOrder(old(Acks()), |b.buf|)
      ensures ackOffset == Arq.CumulativeAck(Rcv())
      ensures readDone == (old(readDone) || Arq.FinReached(Rcv())) &&
        drainable == (old(drainable) || Arq.FinReached(Rcv()))
      ensures Arq.FinReached(Rcv()) ==> ackPending || sessionClosed
      ensures ackPending || timerArmed || sessionClosed || !ring.Open() || ring.contents != []
    {
      hide Channel.Valid, Content, RingBuffer.Valid, Payloads, Arq.Drain, Arq.Accept, Arq.CumulativeAck,
           Arq.FinReached, NoneEmpty, NoneEmptyStashed, Allocs, HeadOf, ResetFor, AckedInOrder, Credited, Owed;
      RingValid();
      FeedAndDrain(b, now);
      RingValid();
      AckInOrder(|b.buf|);
    }

    method FeedAndDrain(b: Buffer, now: int)
      requires Valid() && !cleaned && b.buf != []
      modifies this`readOffset, this`pushed, this`freed, this`credited, this`reorderMap, this`lastReset, this`resets,
               ring.Repr
      ensures Valid() && fresh(ring.Repr - old(ring.Repr)) && ring.Open() == old(ring.Open())
      ensures Rcv() == Arq.Drain(Arq.Accept(old(Rcv()), b.buf))
      ensures closed || sessionClosed || ring.Open() ==> Owed() == old(Owed())
      ensures !Rcv().Deaf() ==> freed == old(freed) && resets == old(resets)
      ensures Allocs() == old(Allocs()) + HeadOf(b) && Credited(old(credited), old(readOffset))
      ensures ResetFor(old(Resets()), closed || sessionClosed, false, now)
    {
      hide Content, RingBuffer.Valid, Payloads, Arq.Drain, Arq.Accept, NoneEmpty, NoneEmptyStashed, Allocs, HeadOf;
      var refused := AcceptNext(b);
      if refused {
        ResetPeer(false, now);
      }
      DrainReorder();
    }

    method AckInOrder(length: nat)
      requires ring.Valid() && this !in ring.Repr
      modifies this`ackOffset, this`ackPending, this`acksQueued, this`timerArmed, this`inOrderPackets, this`readDone,
               this`drainable
      ensures ackOffset == Arq.CumulativeAck(Rcv()) && AckedInOrder(old(Acks()), length)
      ensures readDone == (old(readDone) || Arq.FinReached(Rcv())) &&
        drainable == (old(drainable) || Arq.FinReached(Rcv()))
      ensures Arq.FinReached(Rcv()) ==> ackPending || sessionClosed
      ensures ackPending || timerArmed || sessionClosed || !ring.Open() || ring.contents != []
    {
      hide RingBuffer.Valid;
      var finished := hasFin && readOffset >= finOffset;
      var now := CountForAck(length, finished);
      var ack := CumulativeAck();
      if now {
        SendAck(ack);
      } else {
        ScheduleDelayedAck(ack);
      }
      if finished {
        RemoteClose();
      }
    }

    method RemoteClose()
      modifies this`drainable, this`readDone
      ensures drainable && readDone
    {
      drainable := true;
      readDone := true;
    }

    /**
     A data frame off the wire. The receiver changes as the protocol says; every position it moves over
     is in the ring or credited back; the offset to acknowledge is the cumulative one; outside the
     in-order case an acknowledgement is asked for at once and the buffer goes back unless the reorder
     map keeps it.
     */
    method FeedReliable(offset: nat, b: Buffer, now: int)
      requires Valid() && b.buf != []
      modifies this`readOffset, this`pushed, this`freed, this`credited, this`reorderMap, this`lastReset, this`resets,
               this`ackOffset, this`ackPending, this`acksQueued, this`timerArmed, this`inOrderPackets, this`readDone,
               this`drainable, ring.Repr
      ensures Valid() && fresh(ring.Repr - old(ring.Repr)) && ring.Open() == old(ring.Open())
      ensures Rcv() == Arq.Feed(old(Rcv()), reorderLimit, offset, b.buf)
      ensures !cleaned && (closed || sessionClosed || ring.Open()) ==> Owed() == old(Owed())
      ensures cleaned ==> credited == old(credited) + |b.buf|
      ensures if cleaned then ackOffset == old(ackOffset) else ackOffset == Arq.CumulativeAck(Rcv())
      ensures readOffset == old(readOffset) ==> readDone == old(readDone)
      ensures readOffset != old(readOffset) ==> readDone == (old(readDone) || Arq.FinReached(Rcv()))
      ensures !cleaned && readOffset == old(readOffset) ==> ackPending || sessionClosed
      ensures readOffset == old(readOffset) ==>
        freed == if reorderMap == old(reorderMap) then Given(old(freed), b.head) else old(freed)
      ensures !Rcv().Deaf() && readOffset > old(readOffset) ==> freed == old(freed)
      ensures Allocs() == old(Allocs()) + HeadOf(b)
      ensures var inOrder := !cleaned && offset == old(readOffset);
        && drainable == (old(drainable) || (inOrder && Arq.FinReached(Rcv())))
        && ResetFor(old(Resets()), inOrder && (closed || sessionClosed), false, now)
        && (!cleaned ==> Credited(old(credited), old(readOffset)))
        && (cleaned ==> Acks() == old(Acks()))
        && (inOrder ==> AckedInOrder(old(Acks()), |b.buf|))
        && (!cleaned && !inOrder ==> AckedAtOnce(old(Acks())) && inOrderPackets == old(inOrderPackets))
    {
      hide Channel.Valid, Content, RingBuffer.Valid, Arq.Drain, NoneEmpty, NoneEmptyStashed, Payloads, Arq.FinReached,
           Arq.CumulativeAck, Allocs, HeadOf, AckedInOrder, Given, Arq.Feed;
      RingValid();
      Arq.FeedCases(Rcv(), reorderLimit, offset, b.buf);
      if cleaned || offset + |b.buf| <= readOffset {
        FeedLate(b);
      } else if offset == readOffset {
        Arq.DrainSameFlags(Arq.Accept(Rcv(), b.buf));
        FeedInOrder(b, now);
      } else {
        FeedAside(offset, b);
      }
    }

    /** A frame for a finished channel, or one seen before, goes back; the latter is acknowledged once more. */
    method FeedLate(b: Buffer)
      requires Valid()
      modifies this`freed, this`credited, this`ackOffset, this`ackPending, this`acksQueued, this`timerArmed
      ensures Valid() && freed == Given(old(freed), b.head) && Allocs() == old(Allocs()) + HeadOf(b)
      ensures credited == old(credited) + if cleaned then |b.buf| else 0
      ensures if cleaned then ackOffset == old(ackOffset) && Acks() == old(Acks())
              else ackOffset == Arq.CumulativeAck(Rcv()) && AckedAtOnce(old(Acks()))
    {
      hide Channel.Valid, Content, RingBuffer.Valid, NoneEmpty, NoneEmptyStashed, Payloads, Arq.CumulativeAck, Allocs,
           HeadOf;
      RingValid();
      GiveBack(b);
      if cleaned {
        credited := credited + |b.buf|;
        return;
      }
      var ack := CumulativeAck();
      SendAck(ack);
    }

    /** A frame past the position is stashed once and within the limit; anything else goes back. */
    method FeedAside(offset: nat, b: Buffer)
      requires Valid() && b.buf != [] && !cleaned && offset != readOffset && offset + |b.buf| > readOffset
      modifies this`reorderMap, this`freed, this`ackOffset, this`ackPending, this`acksQueued, this`timerArmed
      ensures Valid()
      ensures Rcv() == Arq.Feed(old(Rcv()), reorderLimit, offset, b.buf)
      ensures ackOffset == Arq.CumulativeAck(Rcv()) && AckedAtOnce(old(Acks()))
      ensures var keep := readOffset < offset <= readOffset + reorderLimit && offset !in old(reorderMap);
        && reorderMap == (if keep then old(reorderMap)[offset := b] else old(reorderMap))
        && freed == if keep then old(freed) else Given(old(freed), b.head)
      ensures Allocs() == old(Allocs()) + HeadOf(b)
    {
      hide Channel.Valid, Content, RingBuffer.Valid, Arq.Drain, NoneEmpty, NoneEmptyStashed, Payloads, Allocs, HeadOf,
           Given, AckedAtOnce;
      RingValid();
      PayloadsRemove(reorderMap, offset);
      PayloadsAdd(reorderMap, offset, b);
      if offset > readOffset && offset - readOffset <= reorderLimit && offset !in reorderMap {
        Keep(offset, b);
        assert offset in reorderMap;
      } else {
        GiveBack(b);
      }
      var ack := CumulativeAck();
      SendAck(ack);
    }

    method Keep(offset: nat, b: Buffer)
      requires Valid() && offset !in reorderMap && b.buf != [] && !cleaned
      modifies this`reorderMap
      ensures Valid() && reorderMap == old(reorderMap)[offset := b] && Allocs() == old(Allocs()) + HeadOf(b)
    {
      hide RingBuffer.Valid, NoneEmpty, Content, Allocations, StashedHeads, HeadOf;
      StashedHeadsAdd(reorderMap, offset, b);
      ghost var rest := multiset(freed) + multiset(Allocations(ring.contents));
      Regrouped(rest, StashedHeads(reorderMap), HeadOf(b));
      reorderMap := reorderMap[offset := b];
    }

    method GiveBack(b: Buffer)
      modifies this`freed
      ensures freed == Given(old(freed), b.head) && Allocs() == old(Allocs()) + HeadOf(b)
    {
      hide Allocs, HeadOf;
      freed := Given(freed, b.head);
      GaveBack(b);
    }

    /** FIN is acknowledged at once, and ends the reading side only when nothing is missing. */
    method HandleFin(offset: nat)
      requires Valid()
      modifies this`hasFin, this`finOffset, this`ackOffset, this`ackPending, this`acksQueued, this`timerArmed,
               this`drainable, this`readDone
      ensures Valid()
      ensures Rcv() == Arq.HandleFin(old(Rcv()), offset)
      ensures if cleaned then ackOffset == old(ackOffset) && Acks() == old(Acks())
              else ackOffset == Arq.CumulativeAck(Rcv()) && AckedAtOnce(old(Acks()))
      ensures var done := !cleaned && Arq.FinReached(Rcv());
        readDone == (old(readDone) || done) && drainable == (old(drainable) || done)
    {
      hide Channel.Valid, Content, RingBuffer.Valid, NoneEmpty, NoneEmptyStashed, Payloads, AckedAtOnce;
      RingValid();
      if cleaned {
        return;
      }
      hasFin := true;
      finOffset := offset;
      var ack := CumulativeAck();
      SendAck(ack);
      if readOffset >= offset {
        RemoteClose();
      }
    }

    /** Any frame off the wire is one delivery of the protocol. */
    method Receive(f: Arq.Frame, head: Option<nat>, now: int)
      requires Valid() && (f.Data? ==> f.payload != [])
      modifies this`readOffset, this`pushed, this`freed, this`credited, this`reorderMap, this`lastReset, this`resets,
               this`ackOffset, this`ackPending, this`acksQueued, this`timerArmed, this`inOrderPackets, this`readDone,
               this`drainable, this`hasFin, this`finOffset, ring.Repr
      ensures Valid() && fresh(ring.Repr - old(ring.Repr)) && ring.Open() == old(ring.Open())
      ensures Rcv() == Arq.Deliver(old(Rcv()), reorderLimit, f)
      ensures !cleaned ==> ackOffset == Arq.CumulativeAck(Rcv())
      ensures cleaned ==> ackOffset == old(ackOffset)
      ensures readDone ==> old(readDone) || Arq.FinReached(Rcv())
      ensures Allocs() == old(Allocs()) + if f.Data? then HeadOf(Buffer(f.payload, head)) else multiset{}
      ensures !cleaned ==> Credited(old(credited), old(readOffset))
    {
      hide Valid, Arq.Feed, Arq.HandleFin, Arq.CumulativeAck, AckedInOrder, ResetFor, Allocs, HeadOf;
      assert Allocs() + multiset{} == Allocs();
      match f
      case Data(o, p) => FeedReliable(o, Buffer(p, head), now);
      case Fin(o) => HandleFin(o);
    }

    // ---------- reading ----------

    /** Reads what the ring has, up to the caller's room, handing emptied buffers back. */
    method ReadSome(room: nat) returns (data: seq<byte>)
      requires Valid()
      modifies this`taken, this`freed, ring.Repr
      ensures Valid() && ring.Repr == old(ring.Repr) && ring.Open() == old(ring.Open())
      ensures taken == old(taken) + data && |data| <= room
      ensures data + Content(ring.contents) == old(Content(ring.contents))
      ensures |data| == room || ring.contents == []
      ensures freed + Allocations(ring.contents) == old(freed + Allocations(ring.contents))
    {
      hide RingBuffer.Valid, Content, NoneEmpty, NoneEmptyStashed, Allocations;
      data := [];
      ghost var all := Content(ring.contents);
      while |data| < room
        invariant Valid() && ring.Repr == old(ring.Repr) && ring.Open() == old(ring.Open())
        invariant taken == old(taken) + data && |data| <= room
        invariant data + Content(ring.contents) == all
        invariant freed + Allocations(ring.contents) == old(freed + Allocations(ring.contents))
        decreases room - |data|
      {
        var some := ReadOnce(room - |data|);
        assert (data + some) + Content(ring.contents) == data + (some + Content(ring.contents));
        assert (old(taken) + data) + some == old(taken) + (data + some);
        data := data + some;
        if some == [] {
          break;
        }
      }
    }

    /** One call of the ring's partial read. */
    method ReadOnce(room: nat) returns (some: seq<byte>)
      requires Valid() && room > 0
      modifies this`taken, this`freed, ring.Repr
      ensures Valid() && ring.Repr == old(ring.Repr) && ring.Open() == old(ring.Open())
      ensures taken == old(taken) + some && |some| <= room
      ensures some + Content(ring.contents) == old(Content(ring.contents))
      ensures some == [] ==> ring.contents == []
      ensures freed + Allocations(ring.contents) == old(freed + Allocations(ring.contents))
    {
      hide RingBuffer.Valid, Content, Consume, NoneEmptyStashed, Allocations;
      ghost var q := ring.contents;
      var data, drained := ring.PartialRead(room);
      some := data;
      if q != [] {
        ConsumeContent(q, Min(room, |q[0].buf|));
        ConsumeNoneEmpty(q, Min(room, |q[0].buf|));
        ConsumeAllocations(q, Min(room, |q[0].buf|), freed);
      } else {
        ContentOfNothing(q);
      }
      if drained.Some? {
        freed := freed + [drained.value];
      }
      assert (taken + some) + Content(ring.contents) == taken + (some + Content(ring.contents));
      taken := taken + some;
    }

    predicate Aborted()
      reads this
    {
      closed || (sessionClosed && !drainable)
    }

    /**
     Read, with the flags that others may set while it runs, before or after its test over an empty
     ring. Bytes if there are any; the end only when the stream is done and nothing is left; and on
     leaving, a call that finds itself aborted throws the rest of the ring away.
     */
    method Read(room: nat, closing: bool, sessionClosing: bool, late: bool) returns (res: ReadResult)
      requires Valid()
      modifies this`taken, this`freed, this`closed, this`sessionClosed, this`drained, this`credited, ring, ring.Repr
      ensures Valid() && ring.Repr == old(ring.Repr) && (ring.Open() ==> old(ring.Open()))
      ensures room > 0 && !old(Aborted()) ==>
        closed == (old(closed) || closing) && sessionClosed == (old(sessionClosed) || sessionClosing)
      ensures room == 0 || old(Aborted()) ==> closed == old(closed) && sessionClosed == old(sessionClosed)
      ensures res == Got([]) <==> room == 0
      ensures res.Refused? <==> room > 0 && (old(Aborted()) || (old(ring.contents) == [] && !late && Aborted()))
      ensures res.Got? ==>
        taken == old(taken) + res.data && |res.data| <= room && res.data <= old(Content(ring.contents))
      ensures !res.Got? ==> taken == old(taken)
      ensures res.Got? && room > 0 && !Aborted() ==>
        res.data + Content(ring.contents) == old(Content(ring.contents)) && (|res.data| == room || ring.contents == [])
      ensures room > 0 && !old(Aborted()) && Aborted() ==> ring.contents == []
      ensures res.EndOfStream? <==>
        room > 0 && !old(Aborted()) && readDone && old(ring.contents) == [] && (late || !Aborted())
      ensures res.WouldBlock? <==>
        room > 0 && !old(Aborted()) && !readDone && old(ring.contents) == [] && (late || !Aborted())
      ensures res.EndOfStream? && old(ring.Open()) ==> taken == pushed
      ensures !res.EndOfStream? && !Aborted() ==> ring.Open() == old(ring.Open())
      ensures res.EndOfStream? ==> !ring.Open()
      ensures room == 0 || old(Aborted()) ==> ring.contents == old(ring.contents)
      ensures freed + Allocations(ring.contents) == old(freed + Allocations(ring.contents))
      ensures credited - old(credited) + |taken| - |old(taken)|
        == |old(Content(ring.contents))| - |Content(ring.contents)|
      ensures !(room > 0 && !old(Aborted()) && Aborted()) ==> credited == old(credited) && drained == old(drained)
      ensures room > 0 && !old(Aborted()) && Aborted() ==> drained
    {
      hide RingBuffer.Valid, NoneEmpty, NoneEmptyStashed, Allocations;
      if room == 0 {
        return Got([]);
      }
      if Aborted() {
        return Refused;
      }
      ContentOfNothing(ring.contents);
      var data := ReadSome(room);
      res := Conclude(data, closing, sessionClosing, late);
    }

    /** How Read goes on once it has looked into the ring. */
    method Conclude(data: seq<byte>, closing: bool, sessionClosing: bool, late: bool) returns (res: ReadResult)
      requires Valid() && !Aborted() && (data == [] ==> ring.contents == [])
      modifies this`freed, this`closed, this`sessionClosed, this`drained, this`credited, ring, ring.Repr
      ensures Valid() && ring.Repr == old(ring.Repr) && (ring.Open() ==> old(ring.Open()))
      ensures closed == (old(closed) || closing) && sessionClosed == (old(sessionClosed) || sessionClosing)
      ensures data != [] ==> res == Got(data)
      ensures data == [] ==>
        res == if !late && Aborted() then Refused else if readDone then EndOfStream else WouldBlock
      ensures ring.contents == if Aborted() then [] else old(ring.contents)
      ensures freed + Allocations(ring.contents) == old(freed + Allocations(ring.contents))
      ensures credited == old(credited) + if Aborted() then |old(Content(ring.contents))| else 0
      ensures drained == (old(drained) || Aborted())
      ensures !res.EndOfStream? && !Aborted() ==> ring.Open() == old(ring.Open())
      ensures res.EndOfStream? ==> !ring.Open()
    {
      hide Channel.Valid, RingBuffer.Valid, NoneEmpty, NoneEmptyStashed, Allocations, Content;
      RingValid();
      NoAllocations();
      if !late {
        CloseFlags(closing, sessionClosing);
      }
      if data != [] {
        res := Got(data);
      } else if Aborted() {
        res := Refused;
      } else if readDone {
        CloseEmptyRing();
        res := EndOfStream;
      } else {
        res := WouldBlock;
      }
      Leave(late && closing, late && sessionClosing);
    }

    /** On leaving, what others have closed by then decides whether the ring is thrown away. */
    method Leave(closing: bool, sessionClosing: bool)
      requires Valid()
      modifies this`freed, this`closed, this`sessionClosed, this`drained, this`credited, ring, ring.Repr
      ensures Valid() && ring.Repr == old(ring.Repr)
      ensures closed == (old(closed) || closing) && sessionClosed == (old(sessionClosed) || sessionClosing)
      ensures if Aborted() then ring.contents == [] && !ring.Open() && drained
              else ring.contents == old(ring.contents) && ring.Open() == old(ring.Open()) && drained == old(drained)
      ensures freed + Allocations(ring.contents) == old(freed + Allocations(ring.contents))
      ensures credited == old(credited) + if Aborted() then |old(Content(ring.contents))| else 0
    {
      hide Channel.Valid, RingBuffer.Valid, NoneEmpty, NoneEmptyStashed, Allocations, Content;
      RingValid();
      NoAllocations();
      CloseFlags(closing, sessionClosing);
      if Aborted() {
        DrainRing();
      }
    }

    /** What others store meanwhile. */
    method CloseFlags(closing: bool, sessionClosing: bool)
      requires Valid()
      modifies this`closed, this`sessionClosed
      ensures Valid()
      ensures closed == (old(closed) || closing) && sessionClosed == (old(sessionClosed) || sessionClosing)
    {
      hide RingBuffer.Valid, NoneEmpty, NoneEmptyStashed;
      closed := closed || closing;
      sessionClosed := sessionClosed || sessionClosing;
    }

    method CloseEmptyRing()
      requires Valid() && ring.contents == []
      modifies ring, ring.Repr
      ensures Valid() && !ring.Open() && ring.contents == [] && ring.Repr == old(ring.Repr)
    {
      hide RingBuffer.Valid, NoneEmptyStashed;
      ring.Close();
    }

    /** The one discarding of the ring: its buffers and its session credit go back. */
    method DrainRing()
      requires Valid()
      modifies this`credited, this`freed, this`drained, ring, ring.Repr
      ensures Valid() && ring.Repr == old(ring.Repr) && ring.contents == [] && !ring.Open() && drained
      ensures credited == old(credited) + |old(Content(ring.contents))|
      ensures freed == old(freed) + old(Allocations(ring.contents))
      ensures Allocs() == old(Allocs())
    {
      hide RingBuffer.Valid, NoneEmptyStashed, Allocations, Allocs;
      NoAllocations();
      if drained {
        ContentOfNothing(ring.contents);
        return;
      }
      PopAll();
      ring.Close();
      drained := true;
      MovedOut();
    }

    method PopAll()
      requires ring.Valid() && this !in ring.Repr
      modifies this`credited, this`freed, ring.Repr
      ensures ring.Valid() && this !in ring.Repr && ring.Repr == old(ring.Repr) && ring.Open() == old(ring.Open())
      ensures ring.contents == []
      ensures credited == old(credited) + |old(Content(ring.contents))|
      ensures freed == old(freed) + old(Allocations(ring.contents))
    {
      hide RingBuffer.Valid, Allocations, Content;
      NoAllocations();
      ContentOfNothing([]);
      ghost var q := ring.contents;
      var more := true;
      while more
        invariant ring.Valid() && this !in ring.Repr && ring.Repr == old(ring.Repr) && ring.Open() == old(ring.Open())
        invariant credited + |Content(ring.contents)| == old(credited) + |Content(q)|
        invariant freed + Allocations(ring.contents) == old(freed) + Allocations(q)
        invariant !more ==> ring.contents == []
        decreases more, |ring.contents|
      {
        ghost var before := ring.contents;
        var b := ring.Pop();
        if b.None? {
          more := false;
        } else {
          ConsumeAllocations(before, |before[0].buf|, freed);
          ConsumeContent(before, |before[0].buf|);
          credited := credited + |b.value.buf|;
          freed := Given(freed, b.value.head);
        }
      }
    }

    // ---------- closing ----------

    /** closeWrite: FIN is sent once. */
    method CloseWrite() returns (fin: Option<Arq.Frame>)
      modifies this`unacked, this`finQueued, this`writeClosed
      ensures writeClosed && (fin.Some? <==> !old(writeClosed))
      ensures fin.Some? ==> fin.value == Arq.Fin(writeOffset) && Snd() == Arq.QueueFin(old(Snd())) && unacked != []
      ensures fin.None? ==> Snd() == old(Snd())
    {
      fin := None;
      if !writeClosed {
        var frame := SendFin();
        fin := Some(frame);
      }
    }

    /** The receiving side of Close: no more payloads, the ring is thrown away, a peer still writing is told. */
    method CloseReceiving(now: int)
      requires Valid()
      modifies this`closed, this`credited, this`freed, this`drained, this`lastReset, this`resets, ring, ring.Repr
      ensures Valid() && closed && ring.Repr == old(ring.Repr) && (ring.Open() ==> old(ring.Open()))
      ensures old(closed) ==>
        && freed == old(freed) && ring.contents == old(ring.contents) && resets == old(resets)
        && credited == old(credited) && drained == old(drained) && lastReset == old(lastReset)
      ensures !old(closed) ==>
        && ring.contents == [] && freed == old(freed) + old(Allocations(ring.contents)) && drained
        && credited == old(credited) + |old(Content(ring.contents))|
      ensures Allocs() == old(Allocs()) && ResetFor(old(Resets()), !old(closed), true, now)
    {
      hide Channel.Valid, RingBuffer.Valid, NoneEmpty, NoneEmptyStashed, Content, Allocations, Allocs;
      RingValid();
      if closed {
        return;
      }
      closed := true;
      DrainRing();
      if !readDone {
        ResetPeer(true, now);
      }
    }

    /** Close: FIN if it was not sent, the receiving side closed once, and finalization if nothing is left to do. */
    method Close(now: int) returns (fin: Option<Arq.Frame>)
      requires Valid()
      modifies this`unacked, this`finQueued, this`writeClosed, this`closed, this`credited, this`freed, this`drained,
               this`lastReset, this`resets, this`reorderMap, this`cleaned, ring, ring.Repr
      ensures Valid() && closed && writeClosed && ring.Repr == old(ring.Repr) && (ring.Open() ==> old(ring.Open()))
      ensures fin.Some? <==> !old(writeClosed)
      ensures fin.Some? ==>
        fin.value == Arq.Fin(writeOffset) && Snd() == Arq.QueueFin(old(Snd())) && cleaned == old(cleaned)
      ensures !old(closed) ==>
        && ring.contents == [] && credited == old(credited) + |old(Content(ring.contents))|
        && old(freed) + old(Allocations(ring.contents)) <= freed && drained
      ensures old(closed) ==> credited == old(credited) && drained == old(drained)
      ensures ResetFor(old(Resets()), !old(closed), true, now) && (fin.None? ==> Snd() == old(Snd()))
      ensures !old(closed) || drainable || old(cleaned) || old(ring.contents) == [] ==> Allocs() == old(Allocs())
      ensures cleaned == (old(cleaned) || (finQueued && readDone && unacked == []))
      ensures old(ring.contents) == [] ==> ring.contents == []
      ensures cleaned || reorderMap == old(reorderMap)
    {
      hide Channel.Valid, RingBuffer.Valid, NoneEmpty, NoneEmptyStashed, Content, Allocations, Allocs, ResetFor,
           Arq.QueueFin;
      RingValid();
      fin := CloseWrite();
      CloseRest(now);
    }

    method CloseRest(now: int)
      requires Valid()
      modifies this`unacked, this`closed, this`credited, this`freed, this`drained, this`lastReset, this`resets,
               this`reorderMap, this`cleaned, ring, ring.Repr
      ensures Valid() && closed && ring.Repr == old(ring.Repr) && (ring.Open() ==> old(ring.Open()))
      ensures unacked == old(unacked) && cleaned == (old(cleaned) || (finQueued && readDone && unacked == []))
      ensures !old(closed) ==>
        && ring.contents == [] && credited == old(credited) + |old(Content(ring.contents))|
        && old(freed) + old(Allocations(ring.contents)) <= freed && drained
      ensures old(closed) ==> credited == old(credited) && drained == old(drained)
      ensures ResetFor(old(Resets()), !old(closed), true, now)
      ensures !old(closed) || drainable || old(cleaned) || old(ring.contents) == [] ==> Allocs() == old(Allocs())
      ensures cleaned || reorderMap == old(reorderMap)
      ensures old(ring.contents) == [] ==> ring.contents == []
    {
      hide Channel.Valid, RingBuffer.Valid, NoneEmpty, NoneEmptyStashed, Content, Allocations, Allocs, ResetFor;
      RingValid();
      NoAllocations();
      CloseReceiving(now);
      MaybeFinalize();
    }

    /** No allocation is lost, except those a ring that is not drainable is closed with. */
    twostate predicate Spared(finalizing: bool)
      reads this, ring
    {
      Allocs() + multiset(if finalizing && !drainable then old(Allocations(ring.contents)) else []) == old(Allocs())
    }

    /** maybeFinalize: once FIN is queued, reading is over and nothing is unacknowledged. */
    method MaybeFinalize()
      requires Valid()
      modifies this`unacked, this`reorderMap, this`cleaned, this`freed, ring, ring.Repr
      ensures Valid() && ring.Repr == old(ring.Repr) && (ring.Open() ==> old(ring.Open())) && unacked == old(unacked)
      ensures var due := finQueued && readDone && unacked == [];
        && cleaned == (old(cleaned) || due)
        && (!due ==> freed == old(freed) && ring.contents == old(ring.contents) && ring.Open() == old(ring.Open()))
        && (drainable ==> ring.contents == old(ring.contents))
        && (due && !old(cleaned) && (!drainable || old(ring.contents) == []) ==> !ring.Open())
      ensures old(freed) <= freed && (old(ring.contents) == [] ==> ring.contents == [])
      ensures cleaned || reorderMap == old(reorderMap)
      ensures Spared(finQueued && readDone && unacked == [] && !old(cleaned))
    {
      hide Channel.Valid, RingBuffer.Valid, NoneEmpty, NoneEmptyStashed, Content, Allocations, Allocs;
      RingValid();
      assert Allocs() + multiset([]) == Allocs();
      if finQueued && readDone && |unacked| == 0 {
        Finalize();
      }
    }

    /** finalize, once: the reliability state goes; a ring that nobody may drain, or that is empty, is closed. */
    method Finalize()
      requires Valid()
      modifies this`unacked, this`reorderMap, this`cleaned, this`freed, ring, ring.Repr
      ensures Valid() && cleaned && ring.Repr == old(ring.Repr) && (ring.Open() ==> old(ring.Open()))
      ensures old(cleaned) ==>
        && unacked == old(unacked) && freed == old(freed) && reorderMap == old(reorderMap)
        && ring.contents == old(ring.contents) && ring.Open() == old(ring.Open())
      ensures !old(cleaned) ==>
        && unacked == [] && old(freed) <= freed
        && (drainable ==> ring.contents == old(ring.contents))
        && (!drainable || old(ring.contents) == [] ==> !ring.Open() && ring.contents == [])
      ensures Spared(!old(cleaned))
    {
      hide RingBuffer.Valid, NoneEmpty, Content, Allocations, Allocs;
      NoAllocations();
      assert Allocs() + multiset([]) == Allocs();
      if cleaned {
        return;
      }
      CleanupReliability();
      CloseUnlessDrainable();
    }

    method CloseUnlessDrainable()
      requires Valid()
      modifies ring, ring.Repr
      ensures Valid() && ring.Repr == old(ring.Repr) && (ring.Open() ==> old(ring.Open()))
      ensures drainable ==> ring.contents == old(ring.contents)
      ensures !drainable || old(ring.contents) == [] ==> !ring.Open() && ring.contents == []
      ensures Spared(true)
    {
      hide RingBuffer.Valid, NoneEmptyStashed, Allocs, Allocations;
      assert Allocs() + multiset([]) == Allocs();
      var n := ring.Length();
      if !drainable || n == 0 {
        ring.Close();
        RingDropped();
        NoAllocations();
      }
    }

    /** localClose: what is not announced as readable to the end is thrown away. */
    method LocalClose()
      requires Valid()
      modifies this`writeClosed, this`finQueued, this`closed, this`readDone, this`credited, this`freed, this`drained,
               this`unacked, this`reorderMap, this`cleaned, ring, ring.Repr
      ensures Valid() && ring.Repr == old(ring.Repr) && (ring.Open() ==> old(ring.Open()))
      ensures closed && readDone && cleaned && writeClosed && finQueued && (!old(cleaned) ==> unacked == [])
      ensures ring.contents == if drainable then old(ring.contents) else []
      ensures credited == old(credited) + if drainable then 0 else |old(Content(ring.contents))|
      ensures drained == (old(drained) || !drainable) && Allocs() == old(Allocs())
    {
      hide Channel.Valid, RingBuffer.Valid, NoneEmpty, NoneEmptyStashed, Content, Allocations, Allocs;
      RingValid();
      NoAllocations();
      assert Allocs() + multiset([]) == Allocs();
      writeClosed, finQueued, closed, readDone := true, true, true, true;
      if !drainable {
        DrainRing();
      }
      Finalize();
    }

    /** peerGone: what was received stays readable to the end. */
    method PeerGone()
      requires Valid()
      modifies this`writeClosed, this`finQueued, this`drainable, this`readDone, this`freed, this`unacked,
               this`reorderMap, this`cleaned, ring, ring.Repr
      ensures Valid() && ring.Repr == old(ring.Repr) && (ring.Open() ==> old(ring.Open()))
      ensures drainable && readDone && cleaned && writeClosed && finQueued && (!old(cleaned) ==> unacked == [])
      ensures ring.contents == old(ring.contents) && Allocs() == old(Allocs())
    {
      hide Channel.Valid, RingBuffer.Valid, NoneEmpty, NoneEmptyStashed, Content, Allocations, Allocs;
      RingValid();
      assert Allocs() + multiset([]) == Allocs();
      writeClosed, finQueued, drainable, readDone := true, true, true, true;
      Finalize();
    }

    /** Hands back the buffer of every stashed frame. */
    method FreeReorder()
      modifies this`reorderMap, this`freed
      ensures reorderMap == map[] && old(freed) <= freed
      ensures multiset(freed) == multiset(old(freed)) + StashedHeads(old(reorderMap))
    {
      hide StashedHeads;
      StashedHeadsAdd(map[], 0, Buffer([], None));
      while reorderMap != map[]
        invariant old(freed) <= freed
        invariant multiset(freed) + StashedHeads(reorderMap) == multiset(old(freed)) + StashedHeads(old(reorderMap))
        decreases |reorderMap|
      {
        var k :| k in reorderMap;
        Arq.SmallerMap(reorderMap, k);
        StashedHeadsRemove(reorderMap, k);
        GivenCounts(freed, reorderMap[k]);
        freed := Given(freed, reorderMap[k].head);
        reorderMap := reorderMap - {k};
      }
    }

    /** The retransmission list and the reorder map go; their buffers go back. */
    method CleanupReliability()
      requires Valid()
      modifies this`unacked, this`reorderMap, this`cleaned, this`freed
      ensures Valid() && Snd() == old(Snd()).(unacked := [])
      ensures Rcv() == old(Rcv()).(reorder := None)
      ensures reorderMap == map[] && old(freed) <= freed
      ensures multiset(freed) == multiset(old(freed)) + StashedHeads(old(reorderMap)) && Allocs() == old(Allocs())
    {
      hide RingBuffer.Valid, Content, Allocs, StashedHeads;
      unacked := [];
      FreeReorder();
      cleaned := true;
      StashFreed();
    }
  }

  /** The first k frames are gone, all of them covered by the acknowledgement, and the next one is not. */
  predicate Released(before: seq<Arq.Frame>, after: seq<Arq.Frame>, k: nat, ack: nat)
    requires k <= |before|
  {
    && after == before[k..] && (forall i :: 0 <= i < k ==> before[i].End() <= ack)
    && (k < |before| ==> before[k].End() > ack)
  }

  /** The allocations handed over with a list of frames. */
  function HeadsOf(fs: seq<Arq.Frame>, heads: seq<Option<nat>>): seq<nat>
    requires |fs| == |heads|
  {
    if fs == [] then []
    else
      var n := |fs| - 1;
      Given(HeadsOf(fs[..n], heads[..n]), if fs[n].Data? then heads[n] else None)
  }

  method ListHeads(fs: seq<Arq.Frame>, heads: seq<Option<nat>>) returns (given: seq<nat>)
    requires |fs| == |heads|
    ensures given == HeadsOf(fs, heads)
  {
    given := [];
    for i := 0 to |fs|
      invariant given == HeadsOf(fs[..i], heads[..i])
    {
      assert fs[..i + 1][..i] == fs[..i] && heads[..i + 1][..i] == heads[..i];
      given := Given(given, if fs[i].Data? then heads[i] else None);
    }
    assert fs[..|fs|] == fs && heads[..|fs|] == heads;
  }

  lemma NoHeads()
    ensures HeadsOf([], []) == []
  {
  }

  lemma HeadsSnoc(fs: seq<Arq.Frame>, heads: seq<Option<nat>>, i: nat, a: multiset<nat>)
    requires |fs| == |heads| && i < |fs|
    ensures a + multiset(HeadsOf(fs[..i + 1], heads[..i + 1]))
      == a + multiset(HeadsOf(fs[..i], heads[..i]))
       + if fs[i].Data? then HeadOf(Buffer(fs[i].payload, heads[i])) else multiset{}
  {
    assert fs[..i + 1][..i] == fs[..i] && heads[..i + 1][..i] == heads[..i];
    var before := HeadsOf(fs[..i], heads[..i]);
    hide HeadsOf;
    GivenCounts(before, Buffer([], heads[i]));
  }

  /** The bytes a list of frames carries. */
  function PayloadOf(frames: seq<Arq.Frame>): seq<byte> {
    if frames == [] then []
    else
      var last := frames[|frames| - 1];
      PayloadOf(frames[..|frames| - 1]) + if last.Data? then last.payload else []
  }

  /** Consecutive data frames from an offset on, none empty and none too long. */
  predicate Cut(frames: seq<Arq.Frame>, from: nat, max: nat) {
    if frames == [] then true
    else
      var init, last := frames[..|frames| - 1], frames[|frames| - 1];
      Cut(init, from, max) && last.Data? && last.offset == from + |PayloadOf(init)| && 0 < |last.payload| <= max
  }

  /** The two windows a call starts from. */
  datatype Windows = Windows(own: int, session: Option<int>)

  ghost function Credit(flow: F.StreamFlow): Windows
    reads flow, flow.own, flow.session
  {
    Windows(flow.own.sendCredits, if flow.session == null then None else Some(flow.session.sendCredits))
  }

  /** What both allow after some bytes; without a session window at most 2^30 at once. */
  function Left(w: Windows, sent: nat): int {
    var other := if w.session.None? then 0x4000_0000 else w.session.value - sent;
    if other < w.own - sent then other else w.own - sent
  }

  /** The next frame takes the most of: the frame size, what is left, and the credit then available. */
  function Piece(b: seq<byte>, sent: nat, max: nat, credit: int): seq<byte>
    requires sent <= |b|
  {
    var most := if |b| - sent < max then |b| - sent else max;
    if credit <= 0 then [] else if credit < most then b[sent..sent + credit] else b[sent..sent + most]
  }

  /** Each frame is as large as frame size, data and credit allow. */
  predicate Greedy(frames: seq<Arq.Frame>, b: seq<byte>, max: nat, w: Windows) {
    if frames == [] then true
    else
      var init, last := frames[..|frames| - 1], frames[|frames| - 1];
      var sent := |PayloadOf(init)|;
      Greedy(init, b, max, w) && sent <= |b| && last.Data? && last.payload == Piece(b, sent, max, Left(w, sent))
  }

  lemma NoneGreedy(b: seq<byte>, max: nat, w: Windows)
    ensures Greedy([], b, max, w)
  {
  }

  lemma {:induction false} GreedySnoc(frames: seq<Arq.Frame>, b: seq<byte>, max: nat, w: Windows, f: Arq.Frame)
    requires Greedy(frames, b, max, w) && |PayloadOf(frames)| <= |b| && f.Data?
    requires f.payload == Piece(b, |PayloadOf(frames)|, max, Left(w, |PayloadOf(frames)|))
    ensures Greedy(frames + [f], b, max, w)
  {
    LastOf(frames, f);
    hide PayloadOf, Piece;
  }

  lemma CutNone(from: nat, max: nat)
    ensures PayloadOf([]) == [] && Cut([], from, max)
  {
  }

  lemma Regroup(a: seq<Arq.Frame>, b: seq<Arq.Frame>, f: Arq.Frame)
    ensures a + b + [f] == a + (b + [f])
  {
  }

  lemma {:induction false} PayloadSnoc(frames: seq<Arq.Frame>, f: Arq.Frame)
    ensures PayloadOf(frames + [f]) == PayloadOf(frames) + if f.Data? then f.payload else []
  {
    LastOf(frames, f);
  }

  lemma {:induction false} CutSnoc(frames: seq<Arq.Frame>, from: nat, max: nat, payload: seq<byte>)
    requires Cut(frames, from, max) && 0 < |payload| <= max
    ensures var f := Arq.Data(from + |PayloadOf(frames)|, payload);
      Cut(frames + [f], from, max) && PayloadOf(frames + [f]) == PayloadOf(frames) + payload
  {
    hide PayloadOf;
    var f := Arq.Data(from + |PayloadOf(frames)|, payload);
    LastOf(frames, f);
    PayloadSnoc(frames, f);
  }

  lemma LastOf(frames: seq<Arq.Frame>, f: Arq.Frame)
    ensures var all := frames + [f]; all[..|all| - 1] == frames && all[|all| - 1] == f
  {
  }

  datatype ReadResult = Got(data: seq<byte>) | EndOfStream | Refused | WouldBlock

  lemma ConsumeNoneEmpty(q: seq<Buffer>, n: nat)
    requires NoneEmpty(q) && q != [] && n <= |q[0].buf|
    ensures NoneEmpty(Consume(q, n))
  {
  }

  lemma ContentOfNothing(q: seq<Buffer>)
    ensures Content([]) == []
    ensures NoneEmpty(q) && Content(q) == [] ==> q == []
  {
  }

  /**
   A new transport: everything unacknowledged is sent again in order, and the receiver's
   acknowledgement comes back. Whatever was lost before, the receiver then has the whole stream
   and the sender has nothing left to send.
   */
  method Resume(sender: Channel, receiver: Channel, heads: seq<Option<nat>>, now: int,
                ghost from: nat, ghost written: seq<byte>, ghost cuts: set<nat>)
    requires receiver.Valid() && !receiver.cleaned && sender != receiver && sender !in receiver.ring.Repr
    requires |heads| == |sender.unacked|
    requires Arq.ReceiverInv(receiver.Rcv(), written, cuts, sender.finQueued)
    requires Arq.Chain(sender.unacked, from, Arq.Top(written, sender.finQueued), written, cuts, sender.finQueued)
    requires from <= Arq.CumulativeAck(receiver.Rcv())
    modifies sender`unacked, receiver`readOffset, receiver`pushed, receiver`freed, receiver`credited,
             receiver`reorderMap, receiver`lastReset, receiver`resets, receiver`ackOffset, receiver`ackPending,
             receiver`acksQueued, receiver`timerArmed, receiver`inOrderPackets, receiver`readDone, receiver`drainable,
             receiver`hasFin, receiver`finOffset, receiver.ring.Repr
    ensures old(receiver.Rcv().Deaf()) ==> receiver.pushed == old(receiver.pushed)
    ensures receiver.ring.Open() == old(receiver.ring.Open())
    ensures receiver.Valid() && receiver.readOffset == |written| && sender.unacked == []
    ensures sender.finQueued ==> Arq.FinReached(receiver.Rcv())
    ensures !receiver.Rcv().Deaf() ==> receiver.taken + Content(receiver.ring.contents) == written
    ensures receiver.Allocs() == old(receiver.Allocs()) + multiset(HeadsOf(old(sender.unacked), heads))
    ensures receiver.cleaned == old(receiver.cleaned) && receiver.Rcv().Deaf() == old(receiver.Rcv().Deaf())
    ensures receiver.readDone ==> old(receiver.readDone) || Arq.FinReached(receiver.Rcv())
    ensures receiver.taken == old(receiver.taken) && fresh(receiver.ring.Repr - old(receiver.ring.Repr))
    ensures Arq.ReceiverInv(receiver.Rcv(), written, cuts, sender.finQueued)
    ensures Arq.CumulativeAck(receiver.Rcv()) == Arq.Top(written, sender.finQueued)
    ensures old(receiver.ackOffset <= Arq.CumulativeAck(receiver.Rcv())) ==>
      receiver.ackOffset <= Arq.CumulativeAck(receiver.Rcv())
  {
    hide Channel.Valid, Channel.Allocs, HeadOf, RingBuffer.Valid, Content, Arq.Deliver, Arq.Chain, Arq.ReceiverMidway,
         Payloads, NoneEmpty, NoneEmptyStashed, Channel.Credited, Arq.CumulativeAck, Arq.DropAcked, Arq.DeliverAll,
         HeadsOf, Released, Arq.IsFrame, Arq.FinReached;
    receiver.RingValid();
    var due := sender.RetransmitAllUnacked();
    ghost var fin, start := sender.finQueued, receiver.Rcv();
    Arq.ChainCatchesUp(start, receiver.reorderLimit, due, from, written, cuts, fin);
    Arq.ChainBounds(due, from, Arq.Top(written, fin), written, cuts, fin);
    FramesFilled(due, from, Arq.Top(written, fin), written, cuts, fin);
    Arq.DeliverAllStep(start, receiver.reorderLimit, due);
    DeliverList(receiver, due, heads, now);
    if due != [] {
      Arq.DropAckedKeepsChain(due, receiver.ackOffset, from, Arq.Top(written, fin), written, cuts, fin);
      var drained := sender.OnAck(receiver.ackOffset);
    }
    receiver.RingValid();
    WholeWhenCaughtUp(receiver.Rcv(), written, cuts, fin);
  }

  method DeliverNext(receiver: Channel, f: Arq.Frame, head: Option<nat>, now: int)
    requires receiver.Valid() && !receiver.cleaned && (f.Data? ==> f.payload != [])
    modifies receiver`readOffset, receiver`pushed, receiver`freed, receiver`credited, receiver`reorderMap,
             receiver`lastReset, receiver`resets, receiver`ackOffset, receiver`ackPending, receiver`acksQueued,
             receiver`timerArmed, receiver`inOrderPackets, receiver`readDone, receiver`drainable, receiver`hasFin,
             receiver`finOffset, receiver.ring.Repr
    ensures receiver.Valid() && fresh(receiver.ring.Repr - old(receiver.ring.Repr)) && receiver !in receiver.ring.Repr
    ensures old(receiver.Rcv().Deaf()) ==> receiver.pushed == old(receiver.pushed)
    ensures receiver.ring.Open() == old(receiver.ring.Open())
    ensures receiver.Rcv() == Arq.Deliver(old(receiver.Rcv()), receiver.reorderLimit, f)
    ensures receiver.readDone ==> old(receiver.readDone) || receiver.hasFin
    ensures old(receiver.hasFin) ==> receiver.hasFin
    ensures receiver.ackOffset == Arq.CumulativeAck(receiver.Rcv())
    ensures receiver.Allocs() ==
      old(receiver.Allocs()) + if f.Data? then HeadOf(Buffer(f.payload, head)) else multiset{}
  {
    hide Channel.Valid, Channel.Allocs, HeadOf, RingBuffer.Valid, Content, Arq.Deliver, Payloads, NoneEmpty,
         NoneEmptyStashed, Channel.Credited, Arq.CumulativeAck;
    receiver.RingValid();
    Arq.DeliverSameFlags(receiver.Rcv(), receiver.reorderLimit, f);
    Arq.DeliverDeaf(receiver.Rcv(), receiver.reorderLimit, f);
    receiver.Receive(f, head, now);
    receiver.RingValid();
  }

  /** A list of frames arrives, one after the other. */
  method DeliverList(receiver: Channel, due: seq<Arq.Frame>, heads: seq<Option<nat>>, now: int)
    requires receiver.Valid() && !receiver.cleaned && |heads| == |due|
    requires forall f <- due :: f.Data? ==> f.payload != []
    modifies receiver`readOffset, receiver`pushed, receiver`freed, receiver`credited, receiver`reorderMap,
             receiver`lastReset, receiver`resets, receiver`ackOffset, receiver`ackPending, receiver`acksQueued,
             receiver`timerArmed, receiver`inOrderPackets, receiver`readDone, receiver`drainable, receiver`hasFin,
             receiver`finOffset, receiver.ring.Repr
    ensures receiver.Valid() && fresh(receiver.ring.Repr - old(receiver.ring.Repr))
    ensures old(receiver.Rcv().Deaf()) ==> receiver.pushed == old(receiver.pushed)
    ensures receiver.ring.Open() == old(receiver.ring.Open())
    ensures receiver.Rcv() == Arq.DeliverAll(old(receiver.Rcv()), receiver.reorderLimit, due)
    ensures receiver.Rcv().Deaf() == old(receiver.Rcv().Deaf())
    ensures receiver.readDone ==> old(receiver.readDone) || receiver.hasFin
    ensures if due == [] then receiver.ackOffset == old(receiver.ackOffset)
            else receiver.ackOffset == Arq.CumulativeAck(receiver.Rcv())
    ensures receiver.Allocs() == old(receiver.Allocs()) + multiset(HeadsOf(due, heads))
  {
    hide Channel.Valid, Channel.Allocs, HeadOf, RingBuffer.Valid, Content, Arq.Deliver, Arq.DeliverAll, Payloads,
         NoneEmpty, NoneEmptyStashed, Channel.Credited, Arq.CumulativeAck, HeadsOf;
    assert multiset(HeadsOf(due[..0], heads[..0])) == multiset{} by { NoHeads(); }
    receiver.RingValid();
    ghost var start := receiver.Rcv();
    var i := 0;
    while i < |due|
      invariant 0 <= i <= |due|
      invariant receiver.Valid() && receiver !in receiver.ring.Repr
      invariant fresh(receiver.ring.Repr - old(receiver.ring.Repr))
      invariant Arq.DeliverAll(receiver.Rcv(), receiver.reorderLimit, due[i..])
        == Arq.DeliverAll(start, receiver.reorderLimit, due)
      invariant receiver.Allocs() == old(receiver.Allocs()) + multiset(HeadsOf(due[..i], heads[..i]))
      invariant receiver.ring.Open() == old(receiver.ring.Open())
      invariant start.Deaf() ==> receiver.pushed == start.pushed
      invariant receiver.readDone ==> old(receiver.readDone) || receiver.hasFin
      invariant i > 0 ==> receiver.ackOffset == Arq.CumulativeAck(receiver.Rcv())
      invariant i == 0 ==> receiver.ackOffset == old(receiver.ackOffset)
    {
      assert due[i] in due && due[i..][1..] == due[i + 1..];
      Arq.DeliverAllStep(receiver.Rcv(), receiver.reorderLimit, due[i..]);
      HeadsSnoc(due, heads, i, old(receiver.Allocs()));
      DeliverNext(receiver, due[i], heads[i], now);
      i := i + 1;
    }
    assert due[i..] == [] && due[..i] == due && heads[..i] == heads;
    Arq.DeliverAllStep(receiver.Rcv(), receiver.reorderLimit, due[i..]);
  }

  lemma FramesFilled(us: seq<Arq.Frame>, from: nat, to: nat, written: seq<byte>, cuts: set<nat>, finSent: bool)
    requires Arq.Chain(us, from, to, written, cuts, finSent)
    ensures forall f <- us :: f.Data? ==> f.payload != []
  {
    Arq.ChainBounds(us, from, to, written, cuts, finSent);
    hide Arq.Chain;
  }

  lemma WholeWhenCaughtUp(r: Arq.Receiver, written: seq<byte>, cuts: set<nat>, finSent: bool)
    requires Arq.ReceiverInv(r, written, cuts, finSent) && r.readOffset == |written|
    requires Arq.CumulativeAck(r) == Arq.Top(written, finSent)
    ensures !r.Deaf() ==> r.pushed == written
    ensures finSent || r.fin.Some? ==> Arq.FinReached(r)
  {
  }

  predicate NoneEmptyStashed(m: map<nat, Buffer>) {
    forall k :: k in m ==> m[k].buf != []
  }

  /** No queued buffer is empty: the readers of the transport drop empty data frames. */
  predicate NoneEmpty(q: seq<Buffer>) {
    forall i :: 0 <= i < |q| ==> q[i].buf != []
  }

  lemma PayloadsRemove(m: map<nat, Buffer>, k: nat)
    ensures Payloads(m - {k}) == Payloads(m) - {k}
    ensures k in m <==> k in Payloads(m)
    ensures k in m ==> Payloads(m)[k] == m[k].buf
  {
  }

  lemma PayloadsAdd(m: map<nat, Buffer>, k: nat, b: Buffer)
    ensures Payloads(m[k := b]) == Payloads(m)[k := b.buf]
  {
  }

  lemma DrainStep(r: Arq.Receiver, t: Arq.Receiver)
    requires r.reorder.Some? && r.readOffset in r.reorder.value
    requires t == Arq.Accept(r.(reorder := Some(r.reorder.value - {r.readOffset})), r.reorder.value[r.readOffset])
    ensures t.reorder.Some? && Arq.Drain(t) == Arq.Drain(r)
  {
  }

  lemma NothingNext(r: Arq.Receiver)
    requires r.reorder.Some? && r.readOffset !in r.reorder.value
    ensures Arq.Drain(r) == r
  {
  }
}
