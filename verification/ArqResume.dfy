/**
 Getting a stream across after losses: a frame fed without interruption is one delivery of the
 protocol, resending the retransmission list in order completes the stream, and so does any
 arrival of its frames in any order among anything else (channel.go, session.go).
 */
module ArqResume {
  import opened Bytes
  import opened Arq
  import opened ArqSink
  import opened ArqLink

  ghost predicate Leads(b: Link, l: Link) {
    exists steps :: Exec(b, steps) == Some(l)
  }

  lemma LeadsNone(b: Link)
    ensures Leads(b, b)
  {
    assert Exec(b, []) == Some(b);
  }

  lemma LeadsNext(b: Link, l: Link, st: ArqLink.Step)
    requires Leads(b, l) && ArqLink.Enabled(l, st)
    ensures Leads(b, ArqLink.Apply(l, st))
  {
    var steps :| Exec(b, steps) == Some(l);
    assert (steps + [st])[..|steps + [st]| - 1] == steps;
    assert Exec(b, steps + [st]) == Some(ArqLink.Apply(l, st));
  }

  // ---------- one delivery ----------

  /** What the ring takes agrees with what the flags allow. */
  predicate Tight(s: Sink) {
    s.ringOpen || s.rcv.Deaf()
  }

  function WithReceiver(l: Link, r: Receiver, feeder: Feeder): Link {
    l.(dst := l.dst.(rcv := r, feeder := feeder))
  }

  lemma Accepts(b: Link, l: Link, p: seq<byte>)
    requires Leads(b, l) && l.dst.feeder == Offering(p, !l.dst.rcv.Deaf()) && Tight(l.dst)
    ensures Leads(b, WithReceiver(l, Accept(l.dst.rcv, p), Between))
  {
    hide Leads;
    LeadsNext(b, l, Receive(PushPayload));
  }

  lemma OffersNext(b: Link, l: Link)
    requires Leads(b, l) && l.dst.feeder.Between? && NextStashed(l.dst.rcv)
    ensures Leads(b, l.(dst := NextOffered(l.dst)))
  {
    hide Leads, NextOffered;
    LeadsNext(b, l, Receive(DrainNext));
  }

  lemma Rests(b: Link, l: Link)
    requires Leads(b, l) && l.dst.feeder.Between? && !NextStashed(l.dst.rcv)
    ensures Leads(b, WithReceiver(l, l.dst.rcv, Resting))
  {
    hide Leads;
    LeadsNext(b, l, Receive(FeedDone));
  }

  /** The stashed frame at the position is accepted first. */
  lemma DrainOnce(r: Receiver)
    requires NextStashed(r)
    ensures var m: map<nat, seq<byte>> := r.reorder.value;
      var t := Accept(r.(reorder := Some(m - {r.readOffset})), m[r.readOffset]);
      && t.reorder == Some(m - {r.readOffset}) && |m - {r.readOffset}| < |m| && t.Deaf() == r.Deaf()
      && Drain(r) == Drain(t)
  {
    SmallerMap(r.reorder.value, r.readOffset);
  }

  lemma {:induction false} DrainsOut(b: Link, l: Link)
    requires Leads(b, l) && l.dst.feeder.Between? && l.dst.rcv.reorder.Some? && Tight(l.dst)
    ensures Leads(b, WithReceiver(l, Drain(l.dst.rcv), Resting))
    decreases |l.dst.rcv.reorder.value|
  {
    hide Leads;
    var r := l.dst.rcv;
    if NextStashed(r) {
      OffersNext(b, l);
      DrainOnce(r);
      hide Drain, Accept, NextStashed;
      var m: map<nat, seq<byte>> := r.reorder.value;
      var r1 := r.(reorder := Some(m - {r.readOffset}));
      Accepts(b, WithReceiver(l, r1, Offering(m[r.readOffset], !r.Deaf())), m[r.readOffset]);
      DrainsOut(b, WithReceiver(l, Accept(r1, m[r.readOffset]), Between));
    } else {
      Rests(b, l);
    }
  }

  /** A frame fed with nobody in between is exactly one delivery step of the protocol. */
  lemma FedAlone(b: Link, l: Link, f: Frame)
    requires Leads(b, l) && f in l.src.net && l.dst.feeder.Resting? && Tight(l.dst)
    ensures Leads(b, WithReceiver(l, Deliver(l.dst.rcv, l.limit, f), Resting))
  {
    hide Leads;
    LeadsNext(b, l, Receive(Arrive(f)));
    if InOrder(l.dst.rcv, f) {
      Accepts(b, WithReceiver(l, l.dst.rcv, Offering(f.payload, !l.dst.rcv.Deaf())), f.payload);
      DrainsOut(b, WithReceiver(l, Accept(l.dst.rcv, f.payload), Between));
    }
  }

  // ---------- in order ----------

  lemma {:induction false} FedInTurn(b: Link, l: Link, us: seq<Frame>)
    requires Leads(b, l) && (forall f <- us :: f in l.src.net)
    requires l.dst.feeder.Resting? && Tight(l.dst)
    ensures Leads(b, WithReceiver(l, DeliverAll(l.dst.rcv, l.limit, us), Resting))
    decreases |us|
  {
    hide Leads, Deliver;
    if us != [] {
      FedAlone(b, l, us[0]);
      DeliverSameFlags(l.dst.rcv, l.limit, us[0]);
      FedInTurn(b, WithReceiver(l, Deliver(l.dst.rcv, l.limit, us[0]), Resting), us[1..]);
    } else {
      assert WithReceiver(l, l.dst.rcv, Resting) == l;
    }
  }

  lemma {:induction false} DeliverAllSameFlags(r: Receiver, limit: nat, us: seq<Frame>)
    ensures DeliverAll(r, limit, us).closed == r.closed && DeliverAll(r, limit, us).sessionClosed == r.sessionClosed
    decreases |us|
  {
    if us != [] {
      DeliverSameFlags(r, limit, us[0]);
      DeliverAllSameFlags(Deliver(r, limit, us[0]), limit, us[1..]);
    }
  }

  /** From every reachable state with both ends alive there is a run, on a new transport that gets
      the retransmission list across in order, after which the receiver is at the last byte and FIN,
      the ring has everything it would take, and the acknowledgement has emptied the list. */
  lemma ResumeCompletes(l: Link) returns (end: Link)
    requires Reachable(l) && !l.src.gone && l.dst.rcv.reorder.Some?
    requires l.dst.feeder.Resting? && Tight(l.dst)
    ensures Leads(l, end) && end.src.written == l.src.written && end.src.snd.unacked == []
    ensures end.dst.rcv.readOffset == |l.src.written| && (l.src.snd.finSent ==> FinReached(end.dst.rcv))
    ensures !l.dst.rcv.Deaf() ==> end.dst.rcv.pushed == l.src.written
  {
    ReachableInv(l);
    var us := l.src.snd.unacked;
    var r := DeliverAll(l.dst.rcv, l.limit, us);
    DeliverAllSameFlags(l.dst.rcv, l.limit, us);
    ResumeReceives(l);
    hide Leads, Reachable, DeliverAll, ReceiverInv, IsFrame, Chain, ArqSink.Inv;
    LeadsNone(l);
    LeadsNext(l, l, SwapTransport);
    var l1 := ArqLink.Apply(l, SwapTransport);
    LeadsNext(l, l1, RetransmitAll);
    var l2 := ArqLink.Apply(l1, RetransmitAll);
    FedInTurn(l, l2, us);
    var l3 := WithReceiver(l2, r, Resting);
    LeadsNext(l, l3, SendAck);
    var l4 := ArqLink.Apply(l3, SendAck);
    LeadsNext(l, l4, DeliverAck(End(l.src)));
    end := ArqLink.Apply(l4, DeliverAck(End(l.src)));
  }

  lemma ResumeReceives(l: Link)
    requires ArqLink.Inv(l) && !l.src.gone && l.dst.rcv.reorder.Some? && l.dst.feeder.Resting?
    ensures var r := DeliverAll(l.dst.rcv, l.limit, l.src.snd.unacked);
      && r.readOffset == |l.src.written| && CumulativeAck(r) == End(l.src) && (l.src.snd.finSent ==> FinReached(r))
      && (!r.Deaf() ==> r.pushed == l.src.written)
    ensures DropAcked(l.src.snd.unacked, End(l.src)) == []
  {
    var s := l.src;
    var us := s.snd.unacked;
    ChainCatchesUp(l.dst.rcv, l.limit, us, Base(us, End(s)), s.written, s.cuts, s.snd.finSent);
    DropAckedKeepsChain(us, End(s), Base(us, End(s)), End(s), s.written, s.cuts, s.snd.finSent);
    hide DeliverAll, IsFrame, Chain, DropAcked;
  }

  // ---------- in any order ----------

  /** The receiver has the frame: behind its position, stashed, or being pushed. */
  predicate Landed(s: Sink, f: Frame) {
    match f
    case Data(o, _) =>
      || f.End() <= s.rcv.readOffset
      || (s.rcv.reorder.Some? && o in s.rcv.reorder.value)
      || (s.feeder.Offering? && o == s.rcv.readOffset)
    case Fin(_) => s.rcv.fin.Some?
  }

  /** The frames of one stream that start at the same place are the same. */
  lemma SameStart(f: Frame, p: seq<byte>, written: seq<byte>, cuts: set<nat>, finSent: bool)
    requires IsFrame(f, written, cuts, finSent) && f.Data? && IsFrame(Data(f.offset, p), written, cuts, finSent)
    ensures f.End() == f.offset + |p|
  {
  }

  lemma ArrivalLands(l: Link, f: Frame)
    requires ArqLink.Inv(l) && ArqLink.Enabled(l, Receive(Arrive(f))) && l.window <= l.limit && l.dst.rcv.reorder.Some?
    ensures Landed(Arrived(l.dst, l.limit, f), f)
  {
    if f.Data? && !InOrder(l.dst.rcv, f) {
      LandsAside(l, f);
    }
    hide ArqLink.Inv, Deliver;
  }

  lemma LandsAside(l: Link, f: Frame)
    requires ArqLink.Inv(l) && f in l.src.net && l.dst.feeder.Resting? && l.window <= l.limit
    requires l.dst.rcv.reorder.Some? && f.Data? && !InOrder(l.dst.rcv, f)
    ensures Landed(Arrived(l.dst, l.limit, f), f)
  {
    assert Stream(l.src, f);
    NoPartialOverlap(l.dst.rcv, f, l.src.written, l.src.cuts, l.src.snd.finSent);
    LimitUnreached(l, f);
    assert f.payload != [];
    AsideOnly(l.dst.rcv, l.limit, f);
    hide ArqLink.Inv, Deliver, IsFrame;
  }

  lemma LandedSame(s: Sink, t: Sink, f: Frame)
    requires Landed(s, f) && t.rcv.readOffset == s.rcv.readOffset && t.rcv.reorder.Some?
    requires s.rcv.fin.Some? ==> t.rcv.fin.Some?
    requires s.rcv.reorder.Some? ==> s.rcv.reorder.value.Keys <= t.rcv.reorder.value.Keys
    requires t.feeder == s.feeder || !s.feeder.Offering?
    ensures Landed(t, f)
  {
  }

  lemma LandedPush(s: Sink, f: Frame, written: seq<byte>, cuts: set<nat>, finSent: bool)
    requires RcvInv(s, written, cuts, finSent) && s.feeder.Offering? && IsFrame(f, written, cuts, finSent) &&
      Landed(s, f)
    ensures Landed(Pushed(s), f)
  {
    if f.Data? && f.offset == s.rcv.readOffset {
      SameStart(f, s.feeder.payload, written, cuts, finSent);
    }
    hide IsFrame, ReceiverMidway;
  }

  lemma LandedNext(s: Sink, f: Frame)
    requires s.feeder.Between? && NextStashed(s.rcv) && Landed(s, f)
    ensures Landed(NextOffered(s), f)
  {
  }

  lemma LandedAside(s: Sink, limit: nat, g: Frame, f: Frame)
    requires s.feeder.Resting? && Landed(s, f) && Arrived(s, limit, g).rcv.reorder.Some?
    ensures Landed(Arrived(s, limit, g), f)
  {
    if !InOrder(s.rcv, g) {
      AsideOnly(s.rcv, limit, g);
      AsideKeepsStash(s.rcv, limit, g);
    }
    hide Deliver, Landed;
    LandedSame(s, Arrived(s, limit, g), f);
  }

  lemma LandedElse(s: Sink, st: ArqSink.Step, f: Frame)
    requires ArqSink.Enabled(s, st) && (ReadStep(st) || FlagStep(st)) && Landed(s, f)
    ensures ReadStep(st) && s.rcv.reorder.Some? ==> Landed(ApplyRead(s, st), f)
    ensures !ReadStep(st) && ApplyFlag(s, st).rcv.reorder.Some? ==> Landed(ApplyFlag(s, st), f)
  {
    hide ApplyRead, ApplyFlag, Landed, ArqSink.Enabled;
    if ReadStep(st) {
      if s.rcv.reorder.Some? {
        LandedSame(s, ApplyRead(s, st), f);
      }
    } else if ApplyFlag(s, st).rcv.reorder.Some? {
      LandedSame(s, ApplyFlag(s, st), f);
    }
  }

  lemma LandedStays(s: Sink, limit: nat, st: ArqSink.Step, f: Frame, written: seq<byte>, cuts: set<nat>, finSent: bool)
    requires ArqSink.Inv(s, written, cuts, finSent) && ArqSink.Enabled(s, st) && IsFrame(f, written, cuts, finSent)
    requires Landed(s, f) && ArqSink.Apply(s, limit, st).rcv.reorder.Some?
    ensures Landed(ArqSink.Apply(s, limit, st), f)
  {
    hide RcvInv, FlagInv, ReadInv, IsFrame, Landed, Arrived, Pushed, NextOffered, ApplyRead, ApplyFlag;
    if st.Arrive? {
      LandedAside(s, limit, st.f, f);
    } else if st.PushPayload? {
      LandedPush(s, f, written, cuts, finSent);
    } else if st.DrainNext? {
      LandedNext(s, f);
    } else {
      LandedElse(s, st, f);
    }
  }

  lemma AsideKeepsStash(r: Receiver, limit: nat, f: Frame)
    requires !InOrder(r, f)
    ensures r.fin.Some? ==> Deliver(r, limit, f).fin.Some?
    ensures r.reorder.Some? ==>
      Deliver(r, limit, f).reorder.Some? && r.reorder.value.Keys <= Deliver(r, limit, f).reorder.value.Keys
  {
  }

  lemma SinkStaysNone(s: Sink, limit: nat, st: ArqSink.Step)
    requires ArqSink.Enabled(s, st) && s.rcv.reorder.None?
    ensures ArqSink.Apply(s, limit, st).rcv.reorder.None?
  {
    if FlagStep(st) {
      hide ArqSink.Enabled, ApplyFlag, ApplyRead, Arrived, Pushed, NextOffered;
    } else if ReadStep(st) {
      hide ArqSink.Enabled, ApplyFlag, ApplyRead, Arrived, Pushed, NextOffered;
    } else {
      hide ApplyFlag, ApplyRead, Drain;
    }
  }

  lemma ReorderStaysNone(l: Link, st: ArqLink.Step)
    requires ArqLink.Enabled(l, st) && l.dst.rcv.reorder.None?
    ensures ArqLink.Apply(l, st).dst.rcv.reorder.None?
  {
    if st.Receive? {
      SinkStaysNone(l.dst, l.limit, st.step);
    }
    hide ArqSink.Apply, DropAcked;
  }

  lemma StreamStays(l: Link, st: ArqLink.Step, f: Frame)
    requires ArqLink.Inv(l) && ArqLink.Enabled(l, st) && Stream(l.src, f)
    ensures Stream(ArqLink.Apply(l, st).src, f)
  {
    hide ArqSink.Apply, ArqSink.Inv, Chain;
    if st.Write? {
      FrameSurvivesWrite(f, l.src.written, l.src.cuts, st.payload);
    }
  }

  /** What is known of a frame that was in the list when the run started. */
  ghost predicate Tracked(l: Link, f: Frame, arrived: bool) {
    Stream(l.src, f) && (arrived ==> Landed(l.dst, f))
  }

  predicate Arrives(steps: seq<ArqLink.Step>, f: Frame) {
    Receive(Arrive(f)) in steps
  }

  lemma {:induction false} TrackedThrough(l: Link, steps: seq<ArqLink.Step>, f: Frame)
    requires ArqLink.Inv(l) && l.window <= l.limit && Stream(l.src, f)
    requires Exec(l, steps).Some? && Exec(l, steps).value.dst.rcv.reorder.Some?
    ensures Tracked(Exec(l, steps).value, f, Arrives(steps, f))
    decreases |steps|
  {
    hide ArqLink.Inv, Landed, IsFrame, ArqLink.Apply, ArqLink.Enabled;
    if steps != [] {
      var init, st := steps[..|steps| - 1], steps[|steps| - 1];
      var before := Exec(l, init).value;
      assert steps == init + [st];
      RunKeeps(l, init);
      if before.dst.rcv.reorder.None? {
        ReorderStaysNone(before, st);
      }
      TrackedThrough(l, init, f);
      StreamStays(before, st, f);
      if st == Receive(Arrive(f)) {
        StepLands(before, f);
      } else if Arrives(init, f) {
        StepLanded(before, st, f);
      }
    }
  }

  lemma StepLands(l: Link, f: Frame)
    requires ArqLink.Inv(l) && ArqLink.Enabled(l, Receive(Arrive(f))) && l.window <= l.limit && l.dst.rcv.reorder.Some?
    ensures Landed(ArqLink.Apply(l, Receive(Arrive(f))).dst, f)
  {
    ArrivalLands(l, f);
  }

  lemma StepLanded(l: Link, st: ArqLink.Step, f: Frame)
    requires ArqLink.Inv(l) && ArqLink.Enabled(l, st) && Stream(l.src, f) && Landed(l.dst, f)
    requires ArqLink.Apply(l, st).dst.rcv.reorder.Some?
    ensures Landed(ArqLink.Apply(l, st).dst, f)
  {
    if st.Receive? {
      LandedStays(l.dst, l.limit, st.step, f, l.src.written, l.src.cuts, l.src.snd.finSent);
    }
  }

  /** A position with no listed frame at or across it is past the end. */
  lemma {:induction false} ChainBehind(us: seq<Frame>, from: nat, written: seq<byte>, cuts: set<nat>, finSent: bool,
                                       x: nat)
    requires Chain(us, from, Top(written, finSent), written, cuts, finSent) && from <= x
    requires forall f <- us :: f.Data? && f.offset <= x ==> f.End() <= x
    ensures |written| <= x
    ensures finSent && us != [] ==> Fin(|written|) in us
  {
    if us != [] {
      if us[0].Data? {
        ChainBehind(us[1..], us[0].End(), written, cuts, finSent, x);
      } else {
        ChainBounds(us, from, Top(written, finSent), written, cuts, finSent);
      }
    }
  }

  lemma {:induction false} AckGrows(l: Link, steps: seq<ArqLink.Step>)
    requires ArqLink.Inv(l) && Exec(l, steps).Some?
    ensures CumulativeAck(Exec(l, steps).value.dst.rcv) >= CumulativeAck(l.dst.rcv)
    ensures |Exec(l, steps).value.src.written| >= |l.src.written|
    ensures l.src.snd.finSent ==>
      Exec(l, steps).value.src.written == l.src.written && Exec(l, steps).value.src.snd.finSent
    decreases |steps|
  {
    hide ArqLink.Inv, ArqSink.Apply, ArqSink.Enabled, CumulativeAck, DropAcked;
    if steps != [] {
      var init, st := steps[..|steps| - 1], steps[|steps| - 1];
      AckGrows(l, init);
      RunKeeps(l, init);
      if st.Receive? {
        AckGrowsOne(Exec(l, init).value, st.step);
      }
    }
  }

  lemma AckGrowsOne(l: Link, st: ArqSink.Step)
    requires ArqLink.Inv(l) && ArqLink.Enabled(l, Receive(st))
    ensures CumulativeAck(ArqLink.Apply(l, Receive(st)).dst.rcv) >= CumulativeAck(l.dst.rcv)
  {
    if st.Arrive? {
      assert Stream(l.src, st.f);
    }
    ArqSink.StepKeeps(l.dst, l.limit, st, l.src.written, l.src.cuts, l.src.snd.finSent);
  }

  /** Between feeds, a frame the receiver has is behind the position or ahead of it. */
  lemma LandedBehind(l: Link, f: Frame)
    requires ArqLink.Inv(l) && l.dst.feeder.Resting? && Stream(l.src, f) && Landed(l.dst, f)
    ensures f.Data? && f.offset <= l.dst.rcv.readOffset ==> f.End() <= l.dst.rcv.readOffset
  {
  }

  /** When the receiver has every listed frame, nothing is missing. */
  lemma NothingMissing(l: Link, l': Link)
    requires ArqLink.Inv(l) && ArqLink.Inv(l') && !l.src.gone
    requires l'.dst.feeder.Resting? && |l'.src.written| >= |l.src.written|
    requires l.src.snd.finSent ==> l'.src.written == l.src.written && l'.src.snd.finSent
    requires CumulativeAck(l'.dst.rcv) >= CumulativeAck(l.dst.rcv)
    requires forall f <- l.src.snd.unacked :: Tracked(l', f, true)
    ensures l'.dst.rcv.readOffset >= |l.src.written|
    ensures l.src.snd.finSent ==> FinReached(l'.dst.rcv)
  {
    var s, r := l.src, l'.dst.rcv;
    var us := s.snd.unacked;
    forall f | f in us ensures f.Data? && f.offset <= r.readOffset ==> f.End() <= r.readOffset {
      assert Tracked(l', f, true);
      LandedBehind(l', f);
    }
    var base := Base(us, End(s));
    if base <= r.readOffset {
      ChainBehind(us, base, s.written, s.cuts, s.snd.finSent, r.readOffset);
      if s.snd.finSent && us != [] {
        assert Tracked(l', Fin(|s.written|), true);
      }
    }
  }

  /**
   With a reorder limit of at least the window: however the frames of the retransmission list
   arrive, in any order, any number of times and between any other steps, once each has arrived and
   the last feed is over the receiver is at least at the end of what was written when it started,
   and at FIN if FIN was sent.
   */
  lemma AnyOrderCompletes(l: Link, steps: seq<ArqLink.Step>)
    requires Reachable(l) && !l.src.gone && l.window <= l.limit
    requires Exec(l, steps).Some? && forall f <- l.src.snd.unacked :: Arrives(steps, f)
    requires var l' := Exec(l, steps).value; l'.dst.rcv.reorder.Some? && l'.dst.feeder.Resting?
    ensures var l' := Exec(l, steps).value;
      && l'.dst.rcv.readOffset >= |l.src.written|
      && (l.src.snd.finSent ==> FinReached(l'.dst.rcv))
  {
    ReachableInv(l);
    RunKeeps(l, steps);
    AckGrows(l, steps);
    forall f | f in l.src.snd.unacked ensures Tracked(Exec(l, steps).value, f, true) {
      assert Stream(l.src, f);
      TrackedThrough(l, steps, f);
    }
    hide ArqLink.Inv, Exec;
    NothingMissing(l, Exec(l, steps).value);
  }
}
