/**
 The receiving end of one channel: the reorder state and the ring behind it, the application's
 Read calls, and the closing of the channel and of the session around them (channel.go,
 session.go). Every test of a shared flag, every push to the ring and every store of a flag is
 a step of its own; whatever frame of the stream arrives is a step too.
 */
module ArqSink {
  import opened Bytes
  import opened Arq

  /** The goroutine that holds the reorder lock, in the in-order case of an arrival. */
  datatype Feeder =
    | Resting
    | Offering(payload: seq<byte>, keep: bool)  // flags tested, about to push and to advance
    | Between                                   // looking for the next stashed frame

  /** The three tests `readAborted` makes: at the start of Read, over an empty ring, on leaving. */
  datatype Where = Entry | Empty | Leaving

  /** Its three loads: the channel's flag, the session's flag, the drainable flag. */
  datatype Stage = Closed | Session | Drainable

  /** Where the application's Read call is. */
  datatype ReaderPc =
    | Idle
    | Checking(at: Where, stage: Stage)
    | Polling                                   // about to look into the ring, read lock held
    | NotAborted                                // ring found empty, about to load readDone
    | Draining                                  // left aborted, about to discard the ring

  /** `goAway` is the peer's GOAWAY received and `peerGone` the channel told of it; `read` is
      what Read has returned and `eof` that it has reported the end. */
  datatype Sink = Sink(rcv: Receiver, feeder: Feeder,
                       drainable: bool, readDone: bool, goAway: bool, peerGone: bool,
                       ringOpen: bool, read: seq<byte>, pc: ReaderPc, sawDone: bool, eof: bool)

  datatype Step =
    | Arrive(f: Frame) | PushPayload | DrainNext | FeedDone
    | RemoteDrainable | RemoteDone              // remoteClose, once FIN is reached
    | CloseChannel | LocalDone                  // Close, and localClose after it
    | SessionClose | GoAway | PeerDrainable | PeerDone
    | CleanReceiver | FinalizeRing | CloserDrain
    | EnterRead | LoadFlag | PollEmpty | Take(n: nat) | LoadDone | DrainRing | SkipDrain

  const NewSink := Sink(NewReceiver, Resting, false, false, false, false, true, [], Idle, false, false)

  /** The read lock is held from the first look into the ring to the return. */
  predicate Locked(pc: ReaderPc) {
    pc.Polling? || pc.NotAborted? || (pc.Checking? && pc.at.Empty?)
  }

  predicate QueueEmpty(s: Sink) {
    !s.ringOpen || |s.read| == |s.rcv.pushed|
  }

  predicate NextStashed(r: Receiver) {
    r.reorder.Some? && r.readOffset in r.reorder.value
  }

  /** A data frame takes the in-order case of the arrival switch. */
  predicate InOrder(r: Receiver, f: Frame) {
    f.Data? && r.reorder.Some? && f.offset == r.readOffset && f.payload != []
  }

  predicate Enabled(s: Sink, st: Step) {
    match st
    case Arrive(f) => s.feeder.Resting?
    case PushPayload => s.feeder.Offering?
    case DrainNext => s.feeder.Between? && NextStashed(s.rcv)
    case FeedDone => s.feeder.Between? && !NextStashed(s.rcv)
    case RemoteDrainable => FinReached(s.rcv)
    case RemoteDone => FinReached(s.rcv) && s.drainable
    case LocalDone => s.rcv.closed
    case PeerDrainable => s.rcv.sessionClosed && s.goAway
    case PeerDone => s.peerGone
    case CleanReceiver => s.readDone && s.feeder.Resting?
    case FinalizeRing => s.rcv.reorder.None? && !Locked(s.pc)
    case CloserDrain => s.rcv.closed && !Locked(s.pc)
    case EnterRead => s.pc.Idle?
    case LoadFlag => s.pc.Checking?
    case PollEmpty => s.pc.Polling? && QueueEmpty(s)
    case Take(n) => s.pc.Polling? && s.ringOpen && 0 < n <= |s.rcv.pushed| - |s.read|
    case LoadDone => s.pc.NotAborted?
    case DrainRing => s.pc.Draining?
    case SkipDrain => s.pc.Draining?
    case _ => true
  }

  /** What an arriving frame does under the reorder lock, up to the first test of the flags. */
  function Arrived(s: Sink, limit: nat, f: Frame): Sink {
    if InOrder(s.rcv, f) then s.(feeder := Offering(f.payload, !s.rcv.Deaf()))
    else s.(rcv := Deliver(s.rcv, limit, f))
  }

  function Pushed(s: Sink): Sink
    requires s.feeder.Offering?
  {
    s.(feeder := Between, rcv := Advance(s.rcv, s.feeder.payload, s.feeder.keep && s.ringOpen))
  }

  function NextOffered(s: Sink): Sink
    requires NextStashed(s.rcv)
  {
    var m: map<nat, seq<byte>> := s.rcv.reorder.value;
    s.(rcv := s.rcv.(reorder := Some(m - {s.rcv.readOffset})), feeder := Offering(m[s.rcv.readOffset], !s.rcv.Deaf()))
  }

  /** The next of the three loads, or the verdict. */
  function FlagLoaded(s: Sink): (t: Sink)
    requires s.pc.Checking?
    ensures t == s.(pc := t.pc, sawDone := t.sawDone)
  {
    match s.pc.stage
    case Closed => if s.rcv.closed then Verdict(s, true) else s.(pc := Checking(s.pc.at, Session))
    case Session => if !s.rcv.sessionClosed then Verdict(s, false) else s.(pc := Checking(s.pc.at, Drainable))
    case Drainable => Verdict(s, !s.drainable)
  }

  function Verdict(s: Sink, aborted: bool): (t: Sink)
    requires s.pc.Checking?
    ensures t == s.(pc := t.pc, sawDone := t.sawDone)
  {
    match s.pc.at
    case Entry => if aborted then s.(pc := Idle) else s.(pc := Polling, sawDone := false)
    case Empty => s.(pc := if aborted then Checking(Leaving, Closed) else NotAborted)
    case Leaving => s.(pc := if aborted then Draining else Idle)
  }

  function DoneLoaded(s: Sink): (t: Sink)
    ensures t == s.(pc := t.pc, sawDone := t.sawDone, eof := t.eof, ringOpen := t.ringOpen)
  {
    if s.readDone && s.sawDone then s.(eof := true, ringOpen := false, pc := Checking(Leaving, Closed))
    else s.(pc := Polling, sawDone := s.readDone)
  }

  predicate FlagStep(st: Step) {
    || st.RemoteDrainable? || st.RemoteDone? || st.CloseChannel? || st.LocalDone? || st.SessionClose? || st.GoAway?
    || st.PeerDrainable? || st.PeerDone? || st.CleanReceiver? || st.FinalizeRing? || st.CloserDrain? || st.FeedDone?
  }

  predicate ReadStep(st: Step) {
    || st.EnterRead? || st.LoadFlag? || st.PollEmpty? || st.Take? || st.LoadDone? || st.DrainRing? || st.SkipDrain?
  }

  function ApplyFlag(s: Sink, st: Step): (t: Sink)
    requires Enabled(s, st) && FlagStep(st)
    ensures t.read == s.read && t.pc == s.pc && t.rcv.pushed == s.rcv.pushed && t.rcv.readOffset == s.rcv.readOffset
    ensures t.rcv.fin == s.rcv.fin && (t.rcv.reorder == s.rcv.reorder || t.rcv.reorder.None?)
    ensures t.feeder == s.feeder || s.feeder.Between?
  {
    match st
    case FeedDone => s.(feeder := Resting)
    case RemoteDrainable => s.(drainable := true)
    case RemoteDone => s.(readDone := true)
    case CloseChannel => s.(rcv := s.rcv.(closed := true))
    case LocalDone => s.(readDone := true)
    case SessionClose => s.(rcv := s.rcv.(sessionClosed := true))
    case GoAway => s.(goAway := true)
    case PeerDrainable => s.(drainable := true, peerGone := true)
    case PeerDone => s.(readDone := true)
    case CleanReceiver => s.(rcv := s.rcv.(reorder := None))
    case FinalizeRing => if !s.drainable || QueueEmpty(s) then s.(ringOpen := false) else s
    case CloserDrain => s.(ringOpen := false)
  }

  function ApplyRead(s: Sink, st: Step): (t: Sink)
    requires Enabled(s, st) && ReadStep(st)
    ensures t == s.(read := t.read, pc := t.pc, sawDone := t.sawDone, eof := t.eof, ringOpen := t.ringOpen)
    ensures |t.read| >= |s.read|
  {
    match st
    case EnterRead => s.(pc := Checking(Entry, Closed))
    case LoadFlag => FlagLoaded(s)
    case PollEmpty => s.(pc := Checking(Empty, Closed))
    case Take(n) => s.(read := s.rcv.pushed[..|s.read| + n], pc := Checking(Leaving, Closed))
    case LoadDone => DoneLoaded(s)
    case DrainRing => s.(ringOpen := false, pc := Idle)
    case SkipDrain => s.(pc := Idle)
  }

  function Apply(s: Sink, limit: nat, st: Step): Sink
    requires Enabled(s, st)
  {
    if st.Arrive? then Arrived(s, limit, st.f)
    else if st.PushPayload? then Pushed(s)
    else if st.DrainNext? then NextOffered(s)
    else if ReadStep(st) then ApplyRead(s, st)
    else ApplyFlag(s, st)
  }

  // ---------- the invariant ----------

  /** The receiver of the stream, also in the middle of a feed. */
  ghost predicate RcvInv(s: Sink, written: seq<byte>, cuts: set<nat>, finSent: bool) {
    && ReceiverMidway(s.rcv, written, cuts, finSent)
    && (!s.feeder.Between? ==> !NextStashed(s.rcv))
    && (!s.feeder.Resting? ==> s.rcv.reorder.Some?)
    && (s.feeder.Offering? ==>
          && IsFrame(Data(s.rcv.readOffset, s.feeder.payload), written, cuts, finSent)
          && (if s.feeder.keep then |s.rcv.pushed| == s.rcv.readOffset else s.rcv.Deaf()))
  }

  /** What each flag rests on. */
  predicate FlagInv(s: Sink) {
    && (s.peerGone ==> s.goAway && s.rcv.sessionClosed && s.drainable)
    && (s.drainable ==> FinReached(s.rcv) || s.peerGone)
    && (s.readDone ==> FinReached(s.rcv) || s.peerGone || s.rcv.closed)
    && (s.readDone && !s.rcv.closed ==> s.drainable)
    && (s.rcv.reorder.None? ==> s.readDone)
    && (!s.ringOpen ==> s.rcv.Deaf() || FinReached(s.rcv) || s.rcv.reorder.None?)
  }

  /** Nothing can reach the ring any more and nothing is in it, unless the channel was told of a GOAWAY. */
  predicate Exhausted(s: Sink) {
    (FinReached(s.rcv) && QueueEmpty(s)) || s.peerGone
  }

  /** The ring was thrown away with bytes in it. */
  predicate Discarded(s: Sink) {
    !s.ringOpen && |s.read| < |s.rcv.pushed|
  }

  predicate ReadInv(s: Sink) {
    && s.read <= s.rcv.pushed
    && (s.sawDone ==> s.readDone)
    && (s.pc.Checking? && s.pc.stage.Drainable? ==> s.rcv.sessionClosed)
    && (s.pc.Draining? ==> s.rcv.Deaf())
    && (s.sawDone && s.pc == Checking(Empty, Closed) && !s.rcv.closed ==> Exhausted(s))
    && (s.sawDone && s.pc.Checking? && s.pc.at.Empty? && !s.pc.stage.Closed? ==> Exhausted(s))
    && (s.sawDone && s.pc.NotAborted? ==> Exhausted(s))
    && (s.eof ==> !s.ringOpen && (FinReached(s.rcv) || s.peerGone))
    && (Discarded(s) ==> s.rcv.Deaf())
  }

  ghost predicate Inv(s: Sink, written: seq<byte>, cuts: set<nat>, finSent: bool) {
    RcvInv(s, written, cuts, finSent) && FlagInv(s) && ReadInv(s)
  }

  // ---------- arrivals ----------

  /** Once FIN is reached, nothing is pushed. */
  predicate NothingPushed(s: Sink, t: Sink) {
    FinReached(s.rcv) ==> t.rcv.pushed == s.rcv.pushed
  }

  /** The reader's part of a step of the feeder. */
  lemma FeederReads(s: Sink, t: Sink)
    requires ReadInv(s) && t == s.(rcv := t.rcv, feeder := t.feeder)
    requires t.rcv.closed == s.rcv.closed && t.rcv.sessionClosed == s.rcv.sessionClosed
    requires s.rcv.pushed <= t.rcv.pushed && (FinReached(s.rcv) ==> FinReached(t.rcv)) && NothingPushed(s, t)
    requires !s.ringOpen ==> t.rcv.pushed == s.rcv.pushed
    ensures ReadInv(t)
  {
    hide FinReached;
  }

  lemma FeederFlags(s: Sink, t: Sink)
    requires FlagInv(s) && t == s.(rcv := t.rcv, feeder := t.feeder)
    requires t.rcv.closed == s.rcv.closed && t.rcv.sessionClosed == s.rcv.sessionClosed
    requires t.rcv.reorder.Some? == s.rcv.reorder.Some? && (FinReached(s.rcv) ==> FinReached(t.rcv))
    ensures FlagInv(t)
  {
    hide FinReached;
  }

  /** A frame that is not in order changes neither the position nor the ring. */
  lemma AsideOnly(r: Receiver, limit: nat, f: Frame)
    requires !InOrder(r, f)
    ensures var t := Deliver(r, limit, f);
      t.pushed == r.pushed && t.readOffset == r.readOffset
  {
  }

  lemma ArriveAside(s: Sink, limit: nat, f: Frame, written: seq<byte>, cuts: set<nat>, finSent: bool)
    requires Inv(s, written, cuts, finSent) && Enabled(s, Arrive(f)) && IsFrame(f, written, cuts, finSent)
    requires !InOrder(s.rcv, f)
    ensures Inv(Arrived(s, limit, f), written, cuts, finSent)
    ensures CumulativeAck(Arrived(s, limit, f).rcv) >= CumulativeAck(s.rcv)
  {
    DeliverKeeps(s.rcv, limit, f, written, cuts, finSent);
    AsideOnly(s.rcv, limit, f);
    hide Deliver, IsFrame, ReceiverMidway, CumulativeAck, ReadInv, FlagInv, FinReached;
    FeederReads(s, Arrived(s, limit, f));
    FeederFlags(s, Arrived(s, limit, f));
  }

  lemma ArriveInOrder(s: Sink, limit: nat, f: Frame, written: seq<byte>, cuts: set<nat>, finSent: bool)
    requires Inv(s, written, cuts, finSent) && Enabled(s, Arrive(f)) && IsFrame(f, written, cuts, finSent)
    requires InOrder(s.rcv, f)
    ensures Inv(Arrived(s, limit, f), written, cuts, finSent)
    ensures Arrived(s, limit, f).rcv == s.rcv
  {
    assert f == Data(s.rcv.readOffset, f.payload);
    var t := Arrived(s, limit, f);
    assert RcvInv(t, written, cuts, finSent) by { hide IsFrame; }
    hide IsFrame, ReadInv, FlagInv, FinReached, RcvInv;
    FeederReads(s, t);
    FeederFlags(s, t);
  }

  /** A frame at the position means that FIN is not reached. */
  lemma OfferBeforeFin(s: Sink, written: seq<byte>, cuts: set<nat>, finSent: bool)
    requires RcvInv(s, written, cuts, finSent) && FlagInv(s) && s.feeder.Offering?
    ensures !FinReached(s.rcv) && s.rcv.reorder.Some? && (!s.ringOpen ==> s.rcv.Deaf())
    ensures s.feeder.payload != []
  {
  }

  lemma PushKeepsReceiver(s: Sink, written: seq<byte>, cuts: set<nat>, finSent: bool)
    requires RcvInv(s, written, cuts, finSent) && FlagInv(s) && s.feeder.Offering?
    ensures RcvInv(Pushed(s), written, cuts, finSent) && CumulativeAck(Pushed(s).rcv) >= CumulativeAck(s.rcv)
    ensures s.rcv.pushed <= Pushed(s).rcv.pushed
  {
    OfferBeforeFin(s, written, cuts, finSent);
    AdvanceKeeps(s.rcv, s.feeder.payload, s.feeder.keep && s.ringOpen, written, cuts, finSent);
    hide IsFrame, ReceiverMidway;
  }

  lemma PushKeeps(s: Sink, written: seq<byte>, cuts: set<nat>, finSent: bool)
    requires Inv(s, written, cuts, finSent) && s.feeder.Offering?
    ensures Inv(Pushed(s), written, cuts, finSent) && CumulativeAck(Pushed(s).rcv) >= CumulativeAck(s.rcv)
  {
    OfferBeforeFin(s, written, cuts, finSent);
    PushKeepsReceiver(s, written, cuts, finSent);
    hide IsFrame, ReadInv, FlagInv, FinReached, RcvInv, CumulativeAck;
    FeederReads(s, Pushed(s));
    FeederFlags(s, Pushed(s));
  }

  lemma NextKeeps(s: Sink, written: seq<byte>, cuts: set<nat>, finSent: bool)
    requires Inv(s, written, cuts, finSent) && s.feeder.Between? && NextStashed(s.rcv)
    ensures Inv(NextOffered(s), written, cuts, finSent) && CumulativeAck(NextOffered(s).rcv) == CumulativeAck(s.rcv)
  {
    var t := NextOffered(s);
    assert RcvInv(t, written, cuts, finSent) && FinReached(t.rcv) == FinReached(s.rcv);
    hide IsFrame, ReadInv, FlagInv, FinReached, RcvInv;
    FeederReads(s, t);
    FeederFlags(s, t);
  }

  // ---------- flags ----------

  lemma FlagStepFlags(s: Sink, st: Step)
    requires FlagInv(s) && Enabled(s, st) && FlagStep(st)
    ensures FlagInv(ApplyFlag(s, st))
  {
  }

  /** The flag steps that change what the receiver takes, and those that close the ring. */
  predicate DeafeningStep(st: Step) {
    st.CloseChannel? || st.SessionClose? || st.CleanReceiver?
  }

  predicate RingStep(st: Step) {
    st.FinalizeRing? || st.CloserDrain?
  }

  lemma FlagStepReads(s: Sink, st: Step)
    requires FlagInv(s) && ReadInv(s) && Enabled(s, st) && FlagStep(st)
    ensures ReadInv(ApplyFlag(s, st))
  {
    hide FlagInv, ReadInv, ApplyFlag, Enabled;
    if DeafeningStep(st) {
      DeafeningReads(s, st);
    } else if RingStep(st) {
      RingReads(s, st);
    } else {
      PlainReads(s, st);
    }
  }

  lemma DeafeningReads(s: Sink, st: Step)
    requires ReadInv(s) && Enabled(s, st) && DeafeningStep(st)
    ensures ReadInv(ApplyFlag(s, st))
  {
    assert FinReached(ApplyFlag(s, st).rcv) == FinReached(s.rcv);
    hide FinReached;
  }

  lemma RingReads(s: Sink, st: Step)
    requires FlagInv(s) && ReadInv(s) && Enabled(s, st) && RingStep(st)
    ensures ReadInv(ApplyFlag(s, st))
  {
    hide FinReached;
  }

  lemma PlainReads(s: Sink, st: Step)
    requires FlagInv(s) && ReadInv(s) && Enabled(s, st) && FlagStep(st) && !DeafeningStep(st) && !RingStep(st)
    ensures ReadInv(ApplyFlag(s, st))
  {
    hide FinReached;
  }

  lemma FlagStepReceiver(s: Sink, st: Step, written: seq<byte>, cuts: set<nat>, finSent: bool)
    requires RcvInv(s, written, cuts, finSent) && Enabled(s, st) && FlagStep(st)
    ensures RcvInv(ApplyFlag(s, st), written, cuts, finSent)
    ensures CumulativeAck(ApplyFlag(s, st).rcv) == CumulativeAck(s.rcv)
  {
    hide IsFrame;
  }

  // ---------- the reader ----------

  lemma VerdictReads(s: Sink, aborted: bool)
    requires ReadInv(s) && FlagInv(s) && s.pc.Checking?
    requires if aborted then s.rcv.Deaf() else !s.pc.stage.Closed?
    ensures ReadInv(Verdict(s, aborted)) && FlagInv(Verdict(s, aborted))
  {
    hide FinReached;
    match s.pc.at {
      case Entry =>
      case Empty => assert !aborted && s.sawDone ==> Exhausted(s);
      case Leaving =>
    }
  }

  lemma NextStage(s: Sink, stage: Stage)
    requires ReadInv(s) && FlagInv(s) && s.pc.Checking? && !stage.Closed?
    requires s.pc.stage.Closed? ==> !s.rcv.closed
    requires stage.Drainable? ==> s.rcv.sessionClosed
    ensures var t := s.(pc := Checking(s.pc.at, stage)); ReadInv(t) && FlagInv(t)
  {
    hide FinReached;
  }

  lemma LoadFlagReads(s: Sink)
    requires ReadInv(s) && FlagInv(s) && s.pc.Checking?
    ensures ReadInv(FlagLoaded(s)) && FlagInv(FlagLoaded(s))
  {
    match s.pc.stage {
      case Closed => if s.rcv.closed { VerdictReads(s, true); } else { NextStage(s, Session); }
      case Session => if !s.rcv.sessionClosed { VerdictReads(s, false); } else { NextStage(s, Drainable); }
      case Drainable => VerdictReads(s, !s.drainable);
    }
    hide ReadInv, FlagInv, Verdict;
  }

  lemma LoadDoneReads(s: Sink)
    requires ReadInv(s) && FlagInv(s) && s.pc.NotAborted?
    ensures ReadInv(DoneLoaded(s)) && FlagInv(DoneLoaded(s))
  {
    hide FinReached;
  }

  lemma ReadStepReads(s: Sink, st: Step)
    requires ReadInv(s) && FlagInv(s) && Enabled(s, st) && ReadStep(st)
    ensures ReadInv(ApplyRead(s, st)) && FlagInv(ApplyRead(s, st))
  {
    hide FinReached;
    if st.LoadFlag? {
      LoadFlagReads(s);
      hide ReadInv, FlagInv;
    } else if st.LoadDone? {
      LoadDoneReads(s);
      hide ReadInv, FlagInv;
    }
  }

  lemma ReadStepKeeps(s: Sink, limit: nat, st: Step, written: seq<byte>, cuts: set<nat>, finSent: bool)
    requires Inv(s, written, cuts, finSent) && Enabled(s, st) && ReadStep(st)
    ensures var t := Apply(s, limit, st);
      Inv(t, written, cuts, finSent) && t.rcv == s.rcv && |t.read| >= |s.read|
  {
    ReadStepReads(s, st);
    hide ApplyRead, ReadInv, FlagInv, IsFrame, ReceiverMidway;
  }

  lemma FlagStepKeeps(s: Sink, limit: nat, st: Step, written: seq<byte>, cuts: set<nat>, finSent: bool)
    requires Inv(s, written, cuts, finSent) && Enabled(s, st) && FlagStep(st)
    ensures var t := Apply(s, limit, st);
      Inv(t, written, cuts, finSent) && CumulativeAck(t.rcv) == CumulativeAck(s.rcv) && t.read == s.read
  {
    hide Enabled, ApplyFlag, ReadInv, FlagInv, RcvInv, CumulativeAck, Arrived, Pushed, NextOffered, ApplyRead;
    FlagStepFlags(s, st);
    FlagStepReads(s, st);
    FlagStepReceiver(s, st, written, cuts, finSent);
  }

  /** Every step of the receiving end keeps its invariant, and acknowledged progress is never undone. */
  lemma StepKeeps(s: Sink, limit: nat, st: Step, written: seq<byte>, cuts: set<nat>, finSent: bool)
    requires Inv(s, written, cuts, finSent) && Enabled(s, st)
    requires st.Arrive? ==> IsFrame(st.f, written, cuts, finSent)
    ensures var t := Apply(s, limit, st);
      && Inv(t, written, cuts, finSent)
      && CumulativeAck(t.rcv) >= CumulativeAck(s.rcv) && |t.read| >= |s.read|
  {
    hide Inv, IsFrame, Deliver, CumulativeAck, ApplyRead, ApplyFlag;
    if st.Arrive? {
      if InOrder(s.rcv, st.f) {
        ArriveInOrder(s, limit, st.f, written, cuts, finSent);
      } else {
        ArriveAside(s, limit, st.f, written, cuts, finSent);
      }
    } else if st.PushPayload? {
      PushKeeps(s, written, cuts, finSent);
    } else if st.DrainNext? {
      NextKeeps(s, written, cuts, finSent);
    } else if ReadStep(st) {
      ReadStepKeeps(s, limit, st, written, cuts, finSent);
    } else {
      FlagStepKeeps(s, limit, st, written, cuts, finSent);
    }
  }

  // ---------- when the end of file is true ----------

  /** Bytes of the stream that arrived will never be returned: refused by the ring or thrown away with it. */
  predicate Damaged(s: Sink) {
    |s.rcv.pushed| < s.rcv.readOffset || Discarded(s)
  }

  /** The branches that do it: a payload fed to a closed channel, session or ring; a ring thrown away
      before it was read; an end reported on GOAWAY's word while a feed had just filled the ring again. */
  predicate Harmful(s: Sink, st: Step) {
    || (st.PushPayload? && s.feeder.Offering? && !(s.feeder.keep && s.ringOpen))
    || ((st.DrainRing? || st.CloserDrain? || (st.FinalizeRing? && !s.drainable)) && !QueueEmpty(s))
    || (st.LoadDone? && s.peerGone && s.readDone && s.sawDone && !QueueEmpty(s))
  }

  lemma HarmDamages(s: Sink, limit: nat, st: Step, written: seq<byte>, cuts: set<nat>, finSent: bool)
    requires Inv(s, written, cuts, finSent) && Enabled(s, st)
    requires st.Arrive? ==> IsFrame(st.f, written, cuts, finSent)
    ensures Damaged(Apply(s, limit, st)) <==> Damaged(s) || Harmful(s, st)
  {
    hide RcvInv, FlagInv, ReadInv, Damaged, Harmful, Enabled, IsFrame;
    hide Arrived, Pushed, NextOffered, ApplyRead, ApplyFlag;
    if st.Arrive? {
      ArriveHarm(s, limit, st.f);
    } else if st.PushPayload? {
      PushHarm(s, written, cuts, finSent);
    } else if st.DrainNext? {
      NextHarm(s);
    } else if ReadStep(st) {
      ReadHarm(s, st);
    } else {
      FlagHarm(s, st);
    }
  }

  lemma ArriveHarm(s: Sink, limit: nat, f: Frame)
    requires Enabled(s, Arrive(f))
    ensures Damaged(Arrived(s, limit, f)) <==> Damaged(s) || Harmful(s, Arrive(f))
  {
    if !InOrder(s.rcv, f) {
      AsideOnly(s.rcv, limit, f);
    }
    hide Deliver;
  }

  lemma PushHarm(s: Sink, written: seq<byte>, cuts: set<nat>, finSent: bool)
    requires Inv(s, written, cuts, finSent) && Enabled(s, PushPayload)
    ensures Damaged(Pushed(s)) <==> Damaged(s) || Harmful(s, PushPayload)
  {
    OfferBeforeFin(s, written, cuts, finSent);
    hide IsFrame, FlagInv, FinReached;
  }

  lemma NextHarm(s: Sink)
    requires Enabled(s, DrainNext)
    ensures Damaged(NextOffered(s)) <==> Damaged(s) || Harmful(s, DrainNext)
  {
  }

  lemma ReadHarm(s: Sink, st: Step)
    requires ReadInv(s) && FlagInv(s) && Enabled(s, st) && ReadStep(st)
    ensures Damaged(ApplyRead(s, st)) <==> Damaged(s) || Harmful(s, st)
  {
    hide FinReached;
  }

  lemma FlagHarm(s: Sink, st: Step)
    requires ReadInv(s) && FlagInv(s) && Enabled(s, st) && FlagStep(st)
    ensures Damaged(ApplyFlag(s, st)) <==> Damaged(s) || Harmful(s, st)
  {
  }

  /** The whole stream was returned, up to its FIN. */
  predicate Whole(s: Sink, written: seq<byte>) {
    FinReached(s.rcv) && s.read == written
  }

  lemma WholeIffUndamaged(s: Sink, written: seq<byte>, cuts: set<nat>, finSent: bool)
    requires Inv(s, written, cuts, finSent) && s.eof
    ensures Whole(s, written) <==> FinReached(s.rcv) && !Damaged(s)
    ensures Whole(s, written) ==> finSent
  {
    if Whole(s, written) {
      assert |s.read| <= |s.rcv.pushed| <= s.rcv.readOffset <= |written|;
    }
  }

  // ---------- FIN announced before the session closed ----------

  /** The stream is complete and announced as readable to the end; only closing the channel itself
      can still throw bytes away, and then Read can no longer report the end. */
  predicate Safe(s: Sink) {
    && s.drainable && FinReached(s.rcv) && |s.rcv.pushed| == s.rcv.readOffset
    && (s.pc.Draining? ==> s.rcv.closed)
    && (s.eof ==> !Discarded(s))
    && (s.sawDone && (s.pc.NotAborted? || (s.pc.Checking? && s.pc.at.Empty?)) ==> QueueEmpty(s))
    && (Discarded(s) ==>
          s.rcv.closed && !s.pc.NotAborted? && !(s.pc.Checking? && s.pc.at.Empty? && !s.pc.stage.Closed?))
  }

  lemma SafeStays(s: Sink, limit: nat, st: Step, written: seq<byte>, cuts: set<nat>, finSent: bool)
    requires Inv(s, written, cuts, finSent) && Enabled(s, st) && Safe(s)
    requires st.Arrive? ==> IsFrame(st.f, written, cuts, finSent)
    ensures Safe(Apply(s, limit, st))
  {
    StepKeeps(s, limit, st, written, cuts, finSent);
    if st.Arrive? {
      DeliverKeeps(s.rcv, limit, st.f, written, cuts, finSent);
      if !InOrder(s.rcv, st.f) {
        AsideOnly(s.rcv, limit, st.f);
      }
      hide IsFrame, Deliver, ReceiverMidway, NextStashed;
    } else if s.feeder.Offering? {
      OfferBeforeFin(s, written, cuts, finSent);
    } else if st.DrainNext? {
      hide IsFrame, ReceiverMidway;
    } else if ReadStep(st) {
      SafeReads(s, st);
      hide ApplyRead, IsFrame, ReadInv, FlagInv, ReceiverMidway;
    } else if !st.PushPayload? {
      SafeFlags(s, st);
      hide ApplyFlag, IsFrame, ReadInv, FlagInv, ReceiverMidway;
    }
  }

  lemma SafeReads(s: Sink, st: Step)
    requires ReadInv(s) && FlagInv(s) && Safe(s) && Enabled(s, st) && ReadStep(st)
    ensures Safe(ApplyRead(s, st))
  {
    hide FinReached;
  }

  lemma SafeFlags(s: Sink, st: Step)
    requires ReadInv(s) && FlagInv(s) && Safe(s) && Enabled(s, st) && FlagStep(st)
    ensures Safe(ApplyFlag(s, st))
  {
  }
}
