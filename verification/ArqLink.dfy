/**
 One direction of one channel as a step system: a writer with its retransmission list and its
 credit, a network that loses, duplicates and reorders frames, and the receiving end of ArqSink.
 Every theorem below is about all runs of this system.
 */
module ArqLink {
  import opened Bytes
  import opened Arq
  import opened ArqSink

  /** `written` and `cuts` record the stream and its frame boundaries; `net` and `acks` are what the
      network holds; `flying` and `granted` are the credit in unreceived window updates and in all
      updates ever sent. */
  datatype Source = Source(written: seq<byte>, cuts: set<nat>, snd: Sender, gone: bool,
                           net: set<Frame>, acks: set<nat>, credits: nat, flying: nat, granted: nat)

  /** `window` is the sender's initial credit, `limit` the receiver's reorder limit. */
  datatype Link = Link(window: nat, limit: nat, src: Source, dst: Sink)

  datatype Step =
    | Write(payload: seq<byte>) | CloseWrite
    | Retransmit(i: nat) | RetransmitAll | SwapTransport | LoseFrame(f: Frame) | LoseAck(a: nat)
    | SendAck | DeliverAck(a: nat) | CleanSender
    | SendUpd(d: nat) | DeliverUpd(d: nat) | LoseUpd(d: nat)
    | Receive(step: ArqSink.Step)

  function Initial(window: nat, limit: nat): Link {
    Link(window, limit, Source([], {0}, NewSender, false, {}, {}, window, 0, 0), NewSink)
  }

  predicate Enabled(l: Link, st: Step) {
    match st
    case Write(p) => 0 < |p| <= l.src.credits && !l.src.snd.finSent
    case CloseWrite => !l.src.snd.finSent
    case Retransmit(i) => i < |l.src.snd.unacked|
    case LoseFrame(f) => f in l.src.net
    case LoseAck(a) => a in l.src.acks
    case DeliverAck(a) => a in l.src.acks
    case SendUpd(d) => l.src.granted + d <= |l.dst.read|
    case DeliverUpd(d) => d <= l.src.flying
    case LoseUpd(d) => d <= l.src.flying
    case Receive(step) => ArqSink.Enabled(l.dst, step) && (step.Arrive? ==> step.f in l.src.net)
    case _ => true
  }

  function WithWrite(s: Source, p: seq<byte>): Source
    requires |p| <= s.credits
  {
    s.(written := s.written + p, cuts := s.cuts + {|s.written| + |p|}, snd := QueueData(s.snd, p),
    net := s.net + {Data(s.snd.writeOffset, p)}, credits := s.credits - |p|)
  }

  function WithFin(s: Source): Source {
    s.(snd := QueueFin(s.snd), net := s.net + {Fin(s.snd.writeOffset)})
  }

  function Apply(l: Link, st: Step): Link
    requires Enabled(l, st)
  {
    var s := l.src;
    match st
    case Write(p) => l.(src := WithWrite(s, p))
    case CloseWrite => l.(src := WithFin(s))
    case Retransmit(i) => l.(src := s.(net := s.net + {s.snd.unacked[i]}))
    case RetransmitAll => l.(src := s.(net := s.net + set f | f in s.snd.unacked))
    case SwapTransport => l.(src := s.(net := {}, acks := {}, flying := 0))
    case LoseFrame(f) => l.(src := s.(net := s.net - {f}))
    case LoseAck(a) => l.(src := s.(acks := s.acks - {a}))
    case SendAck => l.(src := s.(acks := s.acks + {CumulativeAck(l.dst.rcv)}))
    case DeliverAck(a) => l.(src := s.(snd := OnAck(s.snd, a)))
    case CleanSender => l.(src := s.(snd := s.snd.(unacked := []), gone := true))
    case SendUpd(d) => l.(src := s.(flying := s.flying + d, granted := s.granted + d))
    case DeliverUpd(d) => l.(src := s.(flying := s.flying - d, credits := s.credits + d))
    case LoseUpd(d) => l.(src := s.(flying := s.flying - d))
    case Receive(step) => l.(dst := ArqSink.Apply(l.dst, l.limit, step))
  }

  /** The state after a run, or None if some step was not enabled. */
  function Exec(l: Link, steps: seq<Step>): Option<Link> {
    if steps == [] then Some(l)
    else
      var before := Exec(l, steps[..|steps| - 1]);
      var st := steps[|steps| - 1];
      if before.Some? && Enabled(before.value, st) then Some(Apply(before.value, st)) else None
  }

  // ---------- the invariant ----------

  ghost predicate Stream(s: Source, f: Frame) {
    IsFrame(f, s.written, s.cuts, s.snd.finSent)
  }

  function End(s: Source): nat {
    Top(s.written, s.snd.finSent)
  }

  ghost predicate StreamInv(s: Source) {
    && 0 in s.cuts && |s.written| in s.cuts && (forall k <- s.cuts :: k <= |s.written|)
    && s.snd.writeOffset == |s.written|
  }

  /** Everything on the wire is a frame of the stream, and the list is contiguous up to its end. */
  ghost predicate FramesInv(s: Source) {
    && (forall f <- s.net :: Stream(s, f))
    && (forall f <- s.snd.unacked :: Stream(s, f))
    && (!s.gone ==> Chain(s.snd.unacked, Base(s.snd.unacked, End(s)), End(s), s.written, s.cuts, s.snd.finSent))
  }

  /** Everything not yet acknowledged is in the list, and no acknowledgement runs ahead. */
  ghost predicate AckInv(s: Source, ack: nat) {
    && (!s.gone ==> Base(s.snd.unacked, End(s)) <= ack)
    && (forall a <- s.acks :: a <= ack)
  }

  ghost predicate CreditInv(s: Source, window: nat, read: nat) {
    s.credits + |s.written| + s.flying <= window + s.granted && s.granted <= read
  }

  ghost predicate SinkInv(l: Link) {
    ArqSink.Inv(l.dst, l.src.written, l.src.cuts, l.src.snd.finSent)
  }

  ghost predicate Inv(l: Link) {
    && StreamInv(l.src) && FramesInv(l.src) && AckInv(l.src, CumulativeAck(l.dst.rcv))
    && CreditInv(l.src, l.window, |l.dst.read|) && SinkInv(l)
  }

  lemma InitialInv(window: nat, limit: nat)
    ensures Inv(Initial(window, limit))
  {
  }

  // ---------- every step keeps it ----------

  lemma MidwaySurvivesWrite(r: Receiver, written: seq<byte>, cuts: set<nat>, p: seq<byte>)
    requires ReceiverMidway(r, written, cuts, false) && 0 < |p| && forall k <- cuts :: k <= |written|
    ensures ReceiverMidway(r, written + p, cuts + {|written| + |p|}, false)
  {
    if r.reorder.Some? {
      forall k | k in r.reorder.value
        ensures IsFrame(Data(k, r.reorder.value[k]), written + p, cuts + {|written| + |p|}, false)
      {
        FrameSurvivesWrite(Data(k, r.reorder.value[k]), written, cuts, p);
      }
    }
  }

  lemma SinkSurvivesWrite(s: Sink, written: seq<byte>, cuts: set<nat>, p: seq<byte>)
    requires ArqSink.Inv(s, written, cuts, false) && 0 < |p| && forall k <- cuts :: k <= |written|
    ensures ArqSink.Inv(s, written + p, cuts + {|written| + |p|}, false)
  {
    MidwaySurvivesWrite(s.rcv, written, cuts, p);
    if s.feeder.Offering? {
      FrameSurvivesWrite(Data(s.rcv.readOffset, s.feeder.payload), written, cuts, p);
    }
    hide IsFrame, ReceiverMidway, FlagInv, ReadInv;
  }

  lemma MidwaySurvivesFin(r: Receiver, written: seq<byte>, cuts: set<nat>)
    requires ReceiverMidway(r, written, cuts, false)
    ensures ReceiverMidway(r, written, cuts, true)
  {
    if r.reorder.Some? {
      forall k | k in r.reorder.value ensures IsFrame(Data(k, r.reorder.value[k]), written, cuts, true) {
        assert IsFrame(Data(k, r.reorder.value[k]), written, cuts, false);
      }
    }
  }

  lemma SinkSurvivesFin(s: Sink, written: seq<byte>, cuts: set<nat>)
    requires ArqSink.Inv(s, written, cuts, false)
    ensures ArqSink.Inv(s, written, cuts, true)
  {
    hide FlagInv, ReadInv, ReceiverMidway;
    MidwaySurvivesFin(s.rcv, written, cuts);
  }

  lemma WriteFrames(s: Source, p: seq<byte>)
    requires StreamInv(s) && 0 < |p| <= s.credits && !s.snd.finSent
    ensures var t := WithWrite(s, p);
      && StreamInv(t) && Stream(t, Data(|s.written|, p))
      && forall g :: Stream(s, g) ==> Stream(t, g)
  {
    var t := WithWrite(s, p);
    assert p == t.written[|s.written|..|s.written| + |p|];
    forall g | Stream(s, g) ensures Stream(t, g) {
      FrameSurvivesWrite(g, s.written, s.cuts, p);
    }
  }

  lemma WriteSource(s: Source, p: seq<byte>)
    requires StreamInv(s) && FramesInv(s) && 0 < |p| <= s.credits && !s.snd.finSent
    ensures var t := WithWrite(s, p);
      && StreamInv(t) && FramesInv(t)
      && (!s.gone ==> Base(t.snd.unacked, End(t)) == Base(s.snd.unacked, End(s)))
  {
    WriteFrames(s, p);
    hide IsFrame, Chain;
    var t := WithWrite(s, p);
    if !s.gone {
      var base := Base(s.snd.unacked, |s.written|);
      ChainSurvivesWrite(s.snd.unacked, base, |s.written|, s.written, s.cuts, p);
      ChainAppend(s.snd.unacked, Data(|s.written|, p), base, |s.written|, t.written, t.cuts, false);
    }
  }

  lemma FinSource(s: Source)
    requires StreamInv(s) && FramesInv(s) && !s.snd.finSent
    ensures var t := WithFin(s);
      && StreamInv(t) && FramesInv(t)
      && (!s.gone ==> Base(t.snd.unacked, End(t)) == Base(s.snd.unacked, End(s)))
  {
    var t := WithFin(s);
    forall g | Stream(s, g) ensures Stream(t, g) {}
    assert Stream(t, Fin(|s.written|));
    hide IsFrame, Chain;
    if !s.gone {
      var base := Base(s.snd.unacked, |s.written|);
      ChainSurvivesFin(s.snd.unacked, base, |s.written|, s.written, s.cuts);
      ChainAppend(s.snd.unacked, Fin(|s.written|), base, |s.written|, s.written, s.cuts, true);
    }
  }

  lemma WriteKeeps(l: Link, p: seq<byte>)
    requires Inv(l) && Enabled(l, Write(p))
    ensures Inv(Apply(l, Write(p)))
  {
    WriteSource(l.src, p);
    SinkSurvivesWrite(l.dst, l.src.written, l.src.cuts, p);
    hide StreamInv, FramesInv, ArqSink.Inv, CumulativeAck;
  }

  lemma CloseWriteKeeps(l: Link)
    requires Inv(l) && Enabled(l, CloseWrite)
    ensures Inv(Apply(l, CloseWrite))
  {
    FinSource(l.src);
    SinkSurvivesFin(l.dst, l.src.written, l.src.cuts);
    hide StreamInv, FramesInv, ArqSink.Inv, CumulativeAck;
  }

  lemma AckSource(s: Source, a: nat, ack: nat)
    requires StreamInv(s) && FramesInv(s) && AckInv(s, ack) && a <= ack
    ensures var t := s.(snd := OnAck(s.snd, a)); StreamInv(t) && FramesInv(t) && AckInv(t, ack)
  {
    hide IsFrame;
    DropAckedSubset(s.snd.unacked, a);
    if !s.gone {
      DropAckedKeepsChain(s.snd.unacked, a, Base(s.snd.unacked, End(s)), End(s), s.written, s.cuts, s.snd.finSent);
    }
    hide Chain, DropAcked;
  }

  lemma DeliverAckKeeps(l: Link, a: nat)
    requires Inv(l) && Enabled(l, DeliverAck(a))
    ensures Inv(Apply(l, DeliverAck(a)))
  {
    AckSource(l.src, a, CumulativeAck(l.dst.rcv));
    hide ArqSink.Inv, CumulativeAck, FramesInv;
  }

  lemma {:induction false} DropAckedSubset(us: seq<Frame>, ack: nat)
    ensures forall f <- DropAcked(us, ack) :: f in us
  {
    if us != [] && us[0].End() <= ack {
      DropAckedSubset(us[1..], ack);
    }
  }

  /** Steps that neither write, nor acknowledge, nor touch the receiver. */
  predicate NetStep(st: Step) {
    !st.Write? && !st.CloseWrite? && !st.DeliverAck? && !st.Receive?
  }

  lemma NetFrames(l: Link, st: Step)
    requires Inv(l) && Enabled(l, st) && NetStep(st)
    ensures FramesInv(Apply(l, st).src)
  {
    hide IsFrame, Chain, Base, ArqSink.Inv;
    var t := Apply(l, st).src;
    forall f | f in t.net ensures Stream(t, f) {
      assert f in l.src.net || f in l.src.snd.unacked;
      assert Stream(l.src, f);
    }
  }

  lemma NetStepKeeps(l: Link, st: Step)
    requires Inv(l) && Enabled(l, st) && NetStep(st)
    ensures Inv(Apply(l, st))
  {
    NetFrames(l, st);
    hide FramesInv, ArqSink.Inv, CumulativeAck;
  }

  lemma ReceiveKeeps(l: Link, st: ArqSink.Step)
    requires Inv(l) && Enabled(l, Receive(st))
    ensures Inv(Apply(l, Receive(st)))
  {
    if st.Arrive? {
      assert Stream(l.src, st.f);
    }
    ArqSink.StepKeeps(l.dst, l.limit, st, l.src.written, l.src.cuts, l.src.snd.finSent);
    hide ArqSink.Inv, ArqSink.Apply, ArqSink.Enabled, FramesInv, StreamInv, CumulativeAck, Base;
  }

  /** Every step of the link keeps the invariant. */
  lemma StepKeeps(l: Link, st: Step)
    requires Inv(l) && Enabled(l, st)
    ensures Inv(Apply(l, st)) && Apply(l, st).window == l.window && Apply(l, st).limit == l.limit
  {
    hide Inv, ArqSink.Apply;
    if st.Write? {
      WriteKeeps(l, st.payload);
    } else if st.CloseWrite? {
      CloseWriteKeeps(l);
    } else if st.DeliverAck? {
      DeliverAckKeeps(l, st.a);
    } else if st.Receive? {
      ReceiveKeeps(l, st.step);
    } else {
      NetStepKeeps(l, st);
    }
  }

  /** Every state of every run satisfies the invariant. */
  lemma {:induction false} RunKeeps(l: Link, steps: seq<Step>)
    requires Inv(l) && Exec(l, steps).Some?
    ensures Inv(Exec(l, steps).value)
    ensures Exec(l, steps).value.window == l.window && Exec(l, steps).value.limit == l.limit
    decreases |steps|
  {
    hide Inv, Apply, Enabled;
    if steps != [] {
      var before := Exec(l, steps[..|steps| - 1]).value;
      var st := steps[|steps| - 1];
      RunKeeps(l, steps[..|steps| - 1]);
      StepKeeps(before, st);
    }
  }

  // ---------- what every run guarantees ----------

  /** `l` is the state after some run from the start. */
  ghost predicate Reachable(l: Link) {
    exists steps :: Exec(Initial(l.window, l.limit), steps) == Some(l)
  }

  lemma ReachableInv(l: Link)
    requires Reachable(l)
    ensures Inv(l)
  {
    var steps :| Exec(Initial(l.window, l.limit), steps) == Some(l);
    InitialInv(l.window, l.limit);
    hide Inv;
    RunKeeps(Initial(l.window, l.limit), steps);
  }

  /** Whatever the network does, the ring receives a prefix of what was written, exactly `readOffset`
      bytes long until the channel or its session closes, and what Read returns is a prefix of it. */
  lemma PrefixDelivery(l: Link)
    requires Reachable(l)
    ensures l.dst.rcv.pushed <= l.src.written && l.dst.read <= l.src.written
    ensures !l.dst.rcv.Deaf() ==> |l.dst.rcv.pushed| == l.dst.rcv.readOffset
  {
    ReachableInv(l);
  }

  /** Only whole later frames of the stream wait in the reorder map, each under its own offset
      above the receiver's position (at it only while the drain loop is about to take it). */
  lemma ReorderMapHoldsFrames(l: Link, k: nat)
    requires Reachable(l) && l.dst.rcv.reorder.Some? && k in l.dst.rcv.reorder.value
    ensures Stream(l.src, Data(k, l.dst.rcv.reorder.value[k]))
    ensures l.dst.rcv.readOffset <= k && (!l.dst.feeder.Between? ==> l.dst.rcv.readOffset < k)
  {
    ReachableInv(l);
  }

  /** The list is contiguous and reaches from the receiver's position to the end of the stream and
      its FIN; when it is empty, everything is acknowledged. */
  lemma UnackedCoversGap(l: Link)
    requires Reachable(l) && !l.src.gone
    ensures var us := l.src.snd.unacked;
      && (forall i :: 0 <= i < |us| - 1 ==> us[i].End() == us[i + 1].offset)
      && (us != [] ==> us[0].offset <= CumulativeAck(l.dst.rcv) && us[|us| - 1].End() == End(l.src))
      && (us == [] ==> CumulativeAck(l.dst.rcv) == End(l.src))
  {
    ReachableInv(l);
    var s := l.src;
    AckAtMostEnd(l);
    hide ArqSink.Inv, CumulativeAck;
    ChainLinks(s.snd.unacked, Base(s.snd.unacked, End(s)), End(s), s.written, s.cuts, s.snd.finSent);
  }

  lemma AckAtMostEnd(l: Link)
    requires Inv(l)
    ensures CumulativeAck(l.dst.rcv) <= End(l.src)
  {
  }

  lemma {:induction false} ChainLinks(us: seq<Frame>, from: nat, to: nat, written: seq<byte>, cuts: set<nat>,
                                      finSent: bool)
    requires Chain(us, from, to, written, cuts, finSent)
    ensures forall i :: 0 <= i < |us| - 1 ==> us[i].End() == us[i + 1].offset
    ensures us != [] ==> us[0].offset == from && us[|us| - 1].End() == to
  {
    if us != [] {
      ChainLinks(us[1..], us[0].End(), to, written, cuts, finSent);
      assert forall i :: 1 <= i < |us| ==> us[i] == us[1..][i - 1];
    }
  }

  /** Flow control keeps every frame on the wire less than one sender window above the receiver's
      position, so a reorder limit of at least that window never discards one. */
  lemma ReorderLimitUnreachable(l: Link, f: Frame)
    requires Reachable(l) && f in l.src.net && f.Data?
    ensures f.offset < l.dst.rcv.readOffset + l.window
    ensures l.window <= l.limit && l.dst.rcv.reorder.Some? && f.offset > l.dst.rcv.readOffset ==>
              var r := Deliver(l.dst.rcv, l.limit, f);
              r.reorder.Some? && f.offset in r.reorder.value && r.reorder.value[f.offset] == f.payload
  {
    ReachableInv(l);
    LimitUnreached(l, f);
  }

  lemma LimitUnreached(l: Link, f: Frame)
    requires Inv(l) && f in l.src.net && f.Data?
    ensures f.offset < l.dst.rcv.readOffset + l.window
    ensures l.window <= l.limit && l.dst.rcv.reorder.Some? && f.offset > l.dst.rcv.readOffset ==>
              var r := Deliver(l.dst.rcv, l.limit, f);
              r.reorder.Some? && f.offset in r.reorder.value && r.reorder.value[f.offset] == f.payload
  {
    assert Stream(l.src, f);
    var r := l.dst.rcv;
    assert |l.dst.read| <= |r.pushed| <= r.readOffset;
    if r.reorder.Some? && f.offset in r.reorder.value {
      assert Stream(l.src, Data(f.offset, r.reorder.value[f.offset]));
    }
    hide FlagInv, ReadInv, Drain;
  }

  // ---------- when the end of file is true ----------

  /** Some step of the run was harmful. */
  ghost predicate Harmed(l: Link, steps: seq<Step>)
    requires Exec(l, steps).Some?
    decreases |steps|
  {
    if steps == [] then false
    else
      var init, st := steps[..|steps| - 1], steps[|steps| - 1];
      Harmed(l, init) || (st.Receive? && Harmful(Exec(l, init).value.dst, st.step))
  }

  lemma {:induction false} DamagedIffHarmed(l: Link, steps: seq<Step>)
    requires Inv(l) && Exec(l, steps).Some?
    ensures Damaged(Exec(l, steps).value.dst) <==> Damaged(l.dst) || Harmed(l, steps)
    decreases |steps|
  {
    hide Inv, ArqSink.Inv, Damaged, Harmful, ArqSink.Apply, ArqSink.Enabled;
    if steps != [] {
      var init, st := steps[..|steps| - 1], steps[|steps| - 1];
      var before := Exec(l, init).value;
      DamagedIffHarmed(l, init);
      RunKeeps(l, init);
      if st.Receive? {
        StepHarm(before, st.step);
      }
    }
  }

  lemma StepHarm(l: Link, st: ArqSink.Step)
    requires Inv(l) && Enabled(l, Receive(st))
    ensures Damaged(Apply(l, Receive(st)).dst) <==> Damaged(l.dst) || Harmful(l.dst, st)
  {
    if st.Arrive? {
      assert Stream(l.src, st.f);
    }
    HarmDamages(l.dst, l.limit, st, l.src.written, l.src.cuts, l.src.snd.finSent);
  }

  /**
   Once Read has reported the end of file, it has returned the whole stream exactly when FIN is
   reached and no step of the run was harmful: no payload was fed to a closed channel, session or
   ring, and no ring was thrown away or closed unread.
   */
  lemma EofWholeIff(window: nat, limit: nat, steps: seq<Step>)
    requires Exec(Initial(window, limit), steps).Some?
    requires Exec(Initial(window, limit), steps).value.dst.eof
    ensures var l := Exec(Initial(window, limit), steps).value;
      Whole(l.dst, l.src.written) <==> FinReached(l.dst.rcv) && !Harmed(Initial(window, limit), steps)
  {
    InitialInv(window, limit);
    RunKeeps(Initial(window, limit), steps);
    DamagedIffHarmed(Initial(window, limit), steps);
    hide Harmed, Damaged, Exec;
    var l := Exec(Initial(window, limit), steps).value;
    WholeIffUndamaged(l.dst, l.src.written, l.src.cuts, l.src.snd.finSent);
  }

  /** An end of file before FIN is reached comes from a GOAWAY and from nothing else. */
  lemma EofWithoutFinIsGoAway(l: Link)
    requires Reachable(l) && l.dst.eof && !FinReached(l.dst.rcv)
    ensures l.dst.peerGone && l.dst.goAway && l.dst.rcv.sessionClosed
  {
    ReachableInv(l);
  }

  lemma {:induction false} SafeRun(l: Link, steps: seq<Step>)
    requires Inv(l) && Safe(l.dst) && Exec(l, steps).Some?
    ensures Safe(Exec(l, steps).value.dst)
    decreases |steps|
  {
    hide Inv, ArqSink.Inv, Safe, ArqSink.Apply, ArqSink.Enabled;
    if steps != [] {
      var init, st := steps[..|steps| - 1], steps[|steps| - 1];
      SafeRun(l, init);
      RunKeeps(l, init);
      if st.Receive? {
        SafeStep(Exec(l, init).value, st.step);
      }
    }
  }

  lemma SafeStep(l: Link, st: ArqSink.Step)
    requires Inv(l) && Safe(l.dst) && Enabled(l, Receive(st))
    ensures Safe(Apply(l, Receive(st)).dst)
  {
    if st.Arrive? {
      assert Stream(l.src, st.f);
    }
    SafeStays(l.dst, l.limit, st, l.src.written, l.src.cuts, l.src.snd.finSent);
  }

  /** If FIN was announced before the session closed, every end of file Read ever reports is true,
      whatever closes afterwards and in whatever order. */
  lemma FinAnnouncedFirst(l: Link, steps: seq<Step>)
    requires Reachable(l) && l.dst.drainable && !l.dst.rcv.Deaf()
    requires Exec(l, steps).Some? && Exec(l, steps).value.dst.eof
    ensures var l' := Exec(l, steps).value; Whole(l'.dst, l'.src.written)
  {
    ReachableInv(l);
    assert Safe(l.dst);
    SafeRun(l, steps);
    RunKeeps(l, steps);
  }

  // ---------- runs in which it is not ----------

  lemma ReachNext(l: Link, st: Step)
    requires Reachable(l) && Enabled(l, st)
    ensures Reachable(Apply(l, st))
  {
    var steps :| Exec(Initial(l.window, l.limit), steps) == Some(l);
    assert (steps + [st])[..|steps + [st]| - 1] == steps;
    assert Exec(Initial(l.window, l.limit), steps + [st]) == Some(Apply(l, st));
    ReachableInv(l);
    StepKeeps(l, st);
  }

  lemma ReachInitial(window: nat, limit: nat)
    ensures Reachable(Initial(window, limit))
  {
    assert Exec(Initial(window, limit), []) == Some(Initial(window, limit));
  }

  /** The loads of readAborted on a channel that is not closed itself. */
  lemma ReachVerdict(l: Link)
    requires Reachable(l) && l.dst.pc.Checking? && l.dst.pc.stage.Closed? && !l.dst.rcv.closed
    ensures Reachable(l.(dst := Verdict(l.dst, l.dst.rcv.sessionClosed && !l.dst.drainable)))
  {
    hide Reachable, Verdict;
    var at := l.dst.pc.at;
    ReachNext(l, Receive(LoadFlag));
    var l1 := l.(dst := l.dst.(pc := Checking(at, Session)));
    ReachNext(l1, Receive(LoadFlag));
    if l.dst.rcv.sessionClosed {
      ReachNext(l.(dst := l.dst.(pc := Checking(at, Drainable))), Receive(LoadFlag));
    }
    VerdictAt(l.dst, Session, false);
    VerdictAt(l.dst, Drainable, !l.dst.drainable);
  }

  lemma VerdictAt(s: Sink, stage: Stage, aborted: bool)
    requires s.pc.Checking?
    ensures Verdict(s.(pc := Checking(s.pc.at, stage)), aborted) == Verdict(s, aborted)
  {
  }

  /** One pass of the Read loop over an empty ring of a finished stream. */
  lemma ReachPass(l: Link)
    requires Reachable(l) && l.dst.pc.Polling? && !l.dst.rcv.closed && l.dst.drainable && l.dst.readDone &&
      QueueEmpty(l.dst)
    ensures Reachable(l.(dst := DoneLoaded(l.dst.(pc := NotAborted))))
  {
    hide Reachable;
    ReachNext(l, Receive(PollEmpty));
    ReachVerdict(l.(dst := l.dst.(pc := Checking(Empty, Closed))));
    ReachNext(l.(dst := l.dst.(pc := NotAborted)), Receive(LoadDone));
  }

  /** Read called on an empty ring of a finished stream reports the end of file. */
  lemma ReachEof(l: Link) returns (l': Link)
    requires Reachable(l) && l.dst.pc.Idle? && !l.dst.rcv.closed && l.dst.drainable && l.dst.readDone &&
      QueueEmpty(l.dst)
    ensures Reachable(l') && l'.dst.eof && l'.src == l.src && l'.dst.rcv == l.dst.rcv && l'.dst.read == l.dst.read
    ensures l'.dst.goAway == l.dst.goAway
  {
    hide Reachable;
    ReachNext(l, Receive(EnterRead));
    ReachVerdict(l.(dst := l.dst.(pc := Checking(Entry, Closed))));
    var polling := l.(dst := l.dst.(pc := Polling, sawDone := false));
    ReachPass(polling);
    var again := polling.(dst := polling.dst.(sawDone := true));
    ReachPass(again);
    l' := again.(dst := DoneLoaded(again.dst.(pc := NotAborted)));
  }

  /**
   Without any GOAWAY: the session closes while the last frame before a known FIN is being fed. The
   payload is refused, the position still reaches FIN, and Read reports the end with nothing read.
   */
  lemma EofMissesRefusedPayload(window: nat, limit: nat, p: seq<byte>) returns (l: Link)
    requires 0 < |p| <= window
    ensures Reachable(l) && l.dst.eof && !l.dst.goAway && FinReached(l.dst.rcv)
    ensures l.src.written == p && l.dst.read == []
  {
    hide Reachable;
    var l0 := Initial(window, limit);
    ReachInitial(window, limit);
    ReachNext(l0, Write(p));
    var l1 := Apply(l0, Write(p));
    ReachNext(l1, CloseWrite);
    var l2 := Apply(l1, CloseWrite);
    ReachNext(l2, Receive(Arrive(Fin(|p|))));
    var l3 := l2.(dst := l2.dst.(rcv := l2.dst.rcv.(fin := Some(|p|))));
    ReachNext(l3, Receive(SessionClose));
    var l4 := l3.(dst := l3.dst.(rcv := l3.dst.rcv.(sessionClosed := true)));
    ReachNext(l4, Receive(Arrive(Data(0, p))));
    var l5 := l4.(dst := l4.dst.(feeder := Offering(p, false)));
    l := ReachFinish(l5, p);
  }

  lemma ReachFinish(l5: Link, p: seq<byte>) returns (l: Link)
    requires Reachable(l5) && l5.dst == NewSink.(feeder := Offering(p, false),
      rcv := NewReceiver.(fin := Some(|p|), sessionClosed := true))
    ensures Reachable(l) && l.dst.eof && !l.dst.goAway && FinReached(l.dst.rcv) && l.src == l5.src && l.dst.read == []
  {
    hide Reachable;
    ReachNext(l5, Receive(PushPayload));
    var l6 := l5.(dst := l5.dst.(feeder := Between, rcv := l5.dst.rcv.(readOffset := |p|)));
    ReachNext(l6, Receive(FeedDone));
    var l7 := l6.(dst := l6.dst.(feeder := Resting));
    ReachNext(l7, Receive(RemoteDrainable));
    var l8 := l7.(dst := l7.dst.(drainable := true));
    ReachNext(l8, Receive(RemoteDone));
    var l9 := l8.(dst := l8.dst.(readDone := true));
    l := ReachEof(l9);
  }

  /**
   The session closes while Read returns a part of what the ring holds: leaving, Read finds itself
   aborted and throws the rest away. The channel is then told of the GOAWAY and Read reports the end.
   */
  lemma EofMissesDiscardedRing(window: nat, limit: nat, p: seq<byte>, n: nat) returns (l: Link)
    requires 0 < n < |p| <= window
    ensures Reachable(l) && l.dst.eof && l.dst.rcv.pushed == p == l.src.written && l.dst.read == p[..n]
  {
    hide Reachable;
    var l0 := Initial(window, limit);
    ReachInitial(window, limit);
    ReachNext(l0, Write(p));
    var l1 := Apply(l0, Write(p));
    ReachNext(l1, Receive(Arrive(Data(0, p))));
    var l2 := l1.(dst := l1.dst.(feeder := Offering(p, true)));
    ReachNext(l2, Receive(PushPayload));
    var r := NewReceiver.(readOffset := |p|, pushed := p);
    assert [] + p == p;
    var l3 := l1.(dst := NewSink.(feeder := Between, rcv := r));
    ReachNext(l3, Receive(FeedDone));
    var l4 := l1.(dst := NewSink.(rcv := r));
    l := ReachDiscard(l4, p, n);
  }

  lemma ReachDiscard(l4: Link, p: seq<byte>, n: nat) returns (l: Link)
    requires Reachable(l4) && 0 < n < |p| && l4.dst == NewSink.(rcv := NewReceiver.(readOffset := |p|, pushed := p))
    ensures Reachable(l) && l.dst.eof && l.dst.rcv.pushed == p && l.src == l4.src && l.dst.read == p[..n]
  {
    hide Reachable;
    ReachNext(l4, Receive(EnterRead));
    ReachVerdict(l4.(dst := l4.dst.(pc := Checking(Entry, Closed))));
    var s6 := l4.dst.(pc := Polling);
    ReachNext(l4.(dst := s6), Receive(SessionClose));
    var s7 := s6.(rcv := s6.rcv.(sessionClosed := true));
    ReachNext(l4.(dst := s7), Receive(Take(n)));
    var s8 := s7.(read := p[..n], pc := Checking(Leaving, Closed));
    l := ReachThrow(l4.(dst := s8), p[..n]);
  }

  lemma ReachThrow(l8: Link, some: seq<byte>) returns (l: Link)
    requires Reachable(l8) && l8.dst.pc == Checking(Leaving, Closed) && l8.dst.read == some && l8.dst.feeder.Resting?
    requires l8.dst.rcv.sessionClosed && !l8.dst.rcv.closed && !l8.dst.drainable
    ensures Reachable(l) && l.dst.eof && l.dst.rcv == l8.dst.rcv && l.src == l8.src && l.dst.read == some
  {
    hide Reachable;
    var s := l8.dst;
    ReachVerdict(l8);
    ReachNext(l8.(dst := s.(pc := Draining)), Receive(DrainRing));
    hide ArqSink.Apply;
    l := ReachTold(l8.(dst := s.(pc := Idle, ringOpen := false)));
  }

  /** The channel of a closed session is told of the GOAWAY, and Read finds its ring empty. */
  lemma ReachTold(l: Link) returns (l': Link)
    requires Reachable(l) && l.dst.pc.Idle? && l.dst.feeder.Resting? && QueueEmpty(l.dst)
    requires l.dst.rcv.sessionClosed && !l.dst.rcv.closed
    ensures Reachable(l') && l'.dst.eof && l'.src == l.src && l'.dst.rcv == l.dst.rcv && l'.dst.read == l.dst.read
  {
    hide Reachable;
    var s := l.dst;
    ReachNext(l, Receive(GoAway));
    ReachNext(l.(dst := s.(goAway := true)), Receive(PeerDrainable));
    ReachNext(l.(dst := s.(goAway := true, drainable := true, peerGone := true)), Receive(PeerDone));
    hide ArqSink.Apply;
    l' := ReachEof(l.(dst := s.(goAway := true, drainable := true, peerGone := true, readDone := true)));
  }

  /** A GOAWAY received before any frame arrives: Read reports the end with nothing read. */
  lemma GoAwayEndsEarly(window: nat, limit: nat, p: seq<byte>) returns (l: Link)
    requires 0 < |p| <= window
    ensures Reachable(l) && l.dst.eof && !FinReached(l.dst.rcv) && l.src.written == p && l.dst.read == []
  {
    hide Reachable;
    var l0 := Initial(window, limit);
    ReachInitial(window, limit);
    ReachNext(l0, Write(p));
    var l1 := Apply(l0, Write(p));
    ReachNext(l1, Receive(SessionClose));
    l := ReachTold(l1.(dst := NewSink.(rcv := NewReceiver.(sessionClosed := true))));
  }
}
