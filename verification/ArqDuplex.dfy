/**
 Both directions of one channel and the two endpoints' shutdown: an endpoint finalizes when it has
 queued its FIN, has seen the peer's FIN and has nothing unacknowledged; losing the session, giving
 up or being told of a GOAWAY tears it down without asking (channel.go).
 */
module ArqDuplex {
  import opened Bytes
  import opened Arq
  import opened ArqSink
  import opened ArqLink

  datatype Side = A | B {
    function Peer(): Side { if this.A? then B else A }
  }

  /** `aborted` marks localClose or peerGone under way. */
  datatype Endpoint = Endpoint(finQueued: bool, finalized: bool, aborted: bool)

  /** `ab` carries what A writes, `ba` what B writes. */
  datatype Conn = Conn(ab: Link, ba: Link, a: Endpoint, b: Endpoint) {
    function Out(s: Side): Link { if s.A? then ab else ba }
    function In(s: Side): Link { Out(s.Peer()) }
    function At(s: Side): Endpoint { if s.A? then a else b }
    function SetOut(s: Side, l: Link): Conn { if s.A? then this.(ab := l) else this.(ba := l) }
    function SetIn(s: Side, l: Link): Conn { SetOut(s.Peer(), l) }
    function SetAt(s: Side, e: Endpoint): Conn { if s.A? then this.(a := e) else this.(b := e) }
  }

  datatype Event =
    | Traffic(writer: Side, step: ArqLink.Step)  // one step of the direction `writer` sends on
    | MarkFinQueued(s: Side)
    | MaybeFinalize(s: Side)                     // the three conditions, then the list is dropped
    | Abort(s: Side)                             // localClose or peerGone begins
    | Told(s: Side, store: ArqSink.Step)         // one of its stores
    | AbortFinalize(s: Side)
    | CleanIn(s: Side)                           // finalize drops the reorder map

  const Fresh := Endpoint(false, false, false)

  function Start(wa: nat, wb: nat, la: nat, lb: nat): Conn {
    Conn(Initial(wa, lb), Initial(wb, la), Fresh, Fresh)
  }

  /** Stores that only an aborting endpoint makes. */
  predicate AbortStore(st: ArqSink.Step) {
    st.LocalDone? || st.PeerDrainable? || st.PeerDone?
  }

  /** Steps that belong to an endpoint's own teardown. */
  predicate Teardown(st: ArqLink.Step) {
    st.CleanSender? || (st.Receive? && (AbortStore(st.step) || st.step.CleanReceiver?))
  }

  predicate CanHappen(c: Conn, e: Event) {
    match e
    case Traffic(s, st) => !Teardown(st) && ArqLink.Enabled(c.Out(s), st)
    case MarkFinQueued(s) => c.Out(s).src.snd.finSent
    case MaybeFinalize(s) => c.At(s).finQueued && c.In(s).dst.readDone && c.Out(s).src.snd.unacked == []
    case Abort(s) => true
    case Told(s, st) => c.At(s).aborted && AbortStore(st) && ArqLink.Enabled(c.In(s), Receive(st))
    case AbortFinalize(s) => c.At(s).aborted && c.In(s).dst.readDone
    case CleanIn(s) => c.At(s).finalized && ArqLink.Enabled(c.In(s), Receive(CleanReceiver))
  }

  function Finalize(c: Conn, s: Side): Conn {
    if c.At(s).finalized then c
    else c.SetOut(s, ArqLink.Apply(c.Out(s), CleanSender)).SetAt(s, c.At(s).(finalized := true))
  }

  function Happen(c: Conn, e: Event): Conn
    requires CanHappen(c, e)
  {
    match e
    case Traffic(s, st) => c.SetOut(s, ArqLink.Apply(c.Out(s), st))
    case MarkFinQueued(s) => c.SetAt(s, c.At(s).(finQueued := true))
    case MaybeFinalize(s) => Finalize(c, s)
    case Abort(s) => c.SetAt(s, c.At(s).(finQueued := true, aborted := true))
    case Told(s, st) => c.SetIn(s, ArqLink.Apply(c.In(s), Receive(st)))
    case AbortFinalize(s) => Finalize(c, s)
    case CleanIn(s) => c.SetIn(s, ArqLink.Apply(c.In(s), Receive(CleanReceiver)))
  }

  /** Everything written on `l`, and its FIN, has been received. */
  predicate Complete(l: Link) {
    l.src.snd.finSent && l.dst.rcv.fin == Some(|l.src.written|) && l.dst.rcv.readOffset == |l.src.written|
  }

  ghost predicate SideInv(c: Conn, s: Side) {
    && (c.Out(s).src.gone ==> c.At(s).finalized)
    && (!c.At(s).aborted ==>
          && (c.At(s).finQueued ==> c.Out(s).src.snd.finSent)
          && (c.In(s).dst.readDone ==> FinReached(c.In(s).dst.rcv))
          && (c.At(s).finalized ==> Complete(c.Out(s)) && Complete(c.In(s))))
  }

  ghost predicate ConnInv(c: Conn) {
    ArqLink.Inv(c.ab) && ArqLink.Inv(c.ba) && SideInv(c, A) && SideInv(c, B)
  }

  lemma FinMeansComplete(l: Link)
    requires ArqLink.Inv(l) && FinReached(l.dst.rcv)
    ensures Complete(l)
  {
  }

  lemma EmptyListMeansComplete(l: Link)
    requires ArqLink.Inv(l) && !l.src.gone && l.src.snd.finSent && l.src.snd.unacked == []
    ensures Complete(l)
  {
  }

  /** What one step of a link can do to completeness and to the flags shutdown looks at. */
  ghost predicate Onward(l: Link, l': Link) {
    && ArqLink.Inv(l')
    && (FinReached(l.dst.rcv) ==> FinReached(l'.dst.rcv))
    && (Complete(l) ==> Complete(l'))
    && (l.src.snd.finSent ==> l'.src.snd.finSent)
  }

  lemma StepOnward(l: Link, st: ArqLink.Step)
    requires ArqLink.Inv(l) && ArqLink.Enabled(l, st)
    ensures Onward(l, ArqLink.Apply(l, st))
  {
    ArqLink.StepKeeps(l, st);
    var l' := ArqLink.Apply(l, st);
    if st.Receive? {
      if st.step.Arrive? {
        assert Stream(l.src, st.step.f);
      }
      ArqSink.StepKeeps(l.dst, l.limit, st.step, l.src.written, l.src.cuts, l.src.snd.finSent);
      FinStays(l, l');
    }
    hide ArqLink.Inv, ArqSink.Apply, ArqSink.Enabled, FinReached, DropAcked;
    assert FinReached(l.dst.rcv) ==> FinReached(l'.dst.rcv);
    CompleteOnward(l, l');
  }

  lemma FinStays(l: Link, l': Link)
    requires ArqLink.Inv(l) && ArqLink.Inv(l') && l'.src == l.src
    requires CumulativeAck(l'.dst.rcv) >= CumulativeAck(l.dst.rcv)
    ensures FinReached(l.dst.rcv) ==> FinReached(l'.dst.rcv)
  {
  }

  lemma CompleteOnward(l: Link, l': Link)
    requires ArqLink.Inv(l) && ArqLink.Inv(l') && (FinReached(l.dst.rcv) ==> FinReached(l'.dst.rcv))
    ensures Complete(l) ==> Complete(l')
  {
    if FinReached(l'.dst.rcv) {
      FinMeansComplete(l');
    }
  }

  lemma FlagDone(s: Sink, st: ArqSink.Step)
    requires ArqSink.Enabled(s, st) && FlagStep(st) && !AbortStore(st)
    ensures ApplyFlag(s, st).readDone ==> s.readDone || FinReached(s.rcv)
  {
    if st.RemoteDone? {
      hide FinReached;
    } else {
      hide FinReached, QueueEmpty, ArqSink.Enabled;
    }
  }

  lemma SinkDone(s: Sink, limit: nat, st: ArqSink.Step)
    requires ArqSink.Enabled(s, st) && !AbortStore(st)
    ensures ArqSink.Apply(s, limit, st).readDone ==> s.readDone || FinReached(s.rcv)
  {
    if FlagStep(st) {
      FlagDone(s, st);
    }
    hide ApplyFlag, ApplyRead, Deliver, ArqSink.Enabled;
  }

  lemma DoneOnlyByFin(l: Link, st: ArqLink.Step)
    requires ArqLink.Enabled(l, st) && !Teardown(st)
    ensures ArqLink.Apply(l, st).dst.readDone ==> l.dst.readDone || FinReached(l.dst.rcv)
    ensures ArqLink.Apply(l, st).src.gone == l.src.gone
  {
    if st.Receive? {
      SinkDone(l.dst, l.limit, st.step);
    }
    hide ArqSink.Apply, ArqSink.Enabled, DropAcked, FinReached;
  }

  lemma OutKeeps(c: Conn, s: Side, l': Link)
    requires ConnInv(c) && Onward(c.Out(s), l') && l'.src.gone == c.Out(s).src.gone
    requires l'.dst.readDone ==> c.Out(s).dst.readDone || FinReached(c.Out(s).dst.rcv) || c.At(s.Peer()).aborted
    ensures ConnInv(c.SetOut(s, l'))
  {
    hide ArqLink.Inv, FinReached, Complete;
  }

  lemma TrafficKeeps(c: Conn, s: Side, st: ArqLink.Step)
    requires ConnInv(c) && CanHappen(c, Traffic(s, st))
    ensures ConnInv(Happen(c, Traffic(s, st)))
  {
    hide ArqLink.Inv, ArqLink.Apply, ArqLink.Enabled, Onward;
    StepOnward(c.Out(s), st);
    DoneOnlyByFin(c.Out(s), st);
    OutKeeps(c, s, ArqLink.Apply(c.Out(s), st));
  }

  lemma InKeeps(c: Conn, s: Side, st: ArqSink.Step)
    requires ConnInv(c) && ArqLink.Enabled(c.In(s), Receive(st))
    requires if AbortStore(st) then c.At(s).aborted else st.CleanReceiver?
    ensures ConnInv(c.SetIn(s, ArqLink.Apply(c.In(s), Receive(st))))
  {
    StepOnward(c.In(s), Receive(st));
    var l' := ArqLink.Apply(c.In(s), Receive(st));
    assert l'.src == c.In(s).src && (st.CleanReceiver? ==> l'.dst.readDone == c.In(s).dst.readDone);
    hide ArqLink.Inv, ArqLink.Apply, ArqLink.Enabled, Onward;
    OutKeeps(c, s.Peer(), l');
  }

  lemma FinalizeKeeps(c: Conn, s: Side)
    requires ConnInv(c) && (CanHappen(c, MaybeFinalize(s)) || CanHappen(c, AbortFinalize(s)))
    ensures ConnInv(Finalize(c, s))
  {
    hide ArqLink.Inv, FinReached, Complete, Onward, ArqLink.Apply;
    if !c.At(s).finalized {
      CleanOnward(c.Out(s));
      if !c.At(s).aborted {
        BothComplete(c, s);
      }
      assert c.Out(s).src.snd.finSent ==> ArqLink.Apply(c.Out(s), CleanSender).src.snd.finSent;
    }
  }

  lemma CleanOnward(l: Link)
    requires ArqLink.Inv(l)
    ensures var l' := ArqLink.Apply(l, CleanSender);
      && ArqLink.Inv(l') && l'.dst == l.dst && l'.src.snd.finSent == l.src.snd.finSent && l'.src.gone
      && (Complete(l) ==> Complete(l'))
  {
    ArqLink.StepKeeps(l, CleanSender);
    hide ArqLink.Inv;
  }

  /** An endpoint that finalizes of its own accord has nothing outstanding either way. */
  lemma BothComplete(c: Conn, s: Side)
    requires ConnInv(c) && CanHappen(c, MaybeFinalize(s)) && !c.At(s).aborted && !c.At(s).finalized
    ensures Complete(c.Out(s)) && Complete(c.In(s))
  {
    EmptyListMeansComplete(c.Out(s));
    FinMeansComplete(c.In(s));
    hide ArqLink.Inv;
  }

  lemma EventKeeps(c: Conn, e: Event)
    requires ConnInv(c) && CanHappen(c, e)
    ensures ConnInv(Happen(c, e))
  {
    hide ArqLink.Inv, ArqLink.Apply, ArqLink.Enabled, FinReached, Complete;
    match e
    case Traffic(s, st) => TrafficKeeps(c, s, st);
    case MarkFinQueued(s) =>
    case MaybeFinalize(s) => FinalizeKeeps(c, s);
    case Abort(s) =>
    case Told(s, st) => InKeeps(c, s, st);
    case AbortFinalize(s) => FinalizeKeeps(c, s);
    case CleanIn(s) => InKeeps(c, s, CleanReceiver);
  }

  function Run(c: Conn, events: seq<Event>): Option<Conn> {
    if events == [] then Some(c)
    else
      var before := Run(c, events[..|events| - 1]);
      var e := events[|events| - 1];
      if before.Some? && CanHappen(before.value, e) then Some(Happen(before.value, e)) else None
  }

  lemma {:induction false} RunKeepsConn(c: Conn, events: seq<Event>)
    requires ConnInv(c) && Run(c, events).Some?
    ensures ConnInv(Run(c, events).value)
    decreases |events|
  {
    hide ConnInv, Happen, CanHappen;
    if events != [] {
      var before := Run(c, events[..|events| - 1]).value;
      RunKeepsConn(c, events[..|events| - 1]);
      EventKeeps(before, events[|events| - 1]);
      assert Run(c, events).value == Happen(before, events[|events| - 1]);
    }
  }

  /** An endpoint that finalized without aborting leaves nothing behind: the peer has received every
      byte it wrote and its FIN, and it has received every byte the peer wrote and the peer's FIN. An
      end whose channel and session were open all along has them in its ring. */
  lemma FinalizedMeansBothComplete(wa: nat, wb: nat, la: nat, lb: nat, events: seq<Event>, s: Side)
    requires Run(Start(wa, wb, la, lb), events).Some?
    requires var c := Run(Start(wa, wb, la, lb), events).value;
             c.At(s).finalized && !c.At(s).aborted
    ensures var c := Run(Start(wa, wb, la, lb), events).value;
            && Complete(c.Out(s)) && Complete(c.In(s))
            && (!c.Out(s).dst.rcv.Deaf() ==> c.Out(s).dst.rcv.pushed == c.Out(s).src.written)
            && (!c.In(s).dst.rcv.Deaf() ==> c.In(s).dst.rcv.pushed == c.In(s).src.written)
  {
    InitialInv(wa, lb);
    InitialInv(wb, la);
    RunKeepsConn(Start(wa, wb, la, lb), events);
    var c := Run(Start(wa, wb, la, lb), events).value;
    CompleteIsAll(c.Out(s));
    CompleteIsAll(c.In(s));
  }

  lemma CompleteIsAll(l: Link)
    requires ArqLink.Inv(l) && Complete(l)
    ensures !l.dst.rcv.Deaf() ==> l.dst.rcv.pushed == l.src.written
  {
  }
}
