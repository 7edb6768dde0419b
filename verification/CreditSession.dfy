/**
 The two-level credit ledger with Reliability off: any number of channels whose
 writers take session credit, then stream credit, and refund the first when the
 second is short; bytes in transit, stashed early, in a ring, read, discarded,
 drained or lost; and both return paths (flow.go, session.go, channel.go).
 */
module CreditSession {
  import opened Bytes
  import opened CreditPipe

  /** A channel's writer inside AcquireCredits and queueDataLocked. */
  datatype Writer =
    | WIdle
    | WSession(n: nat)    // session credit taken
    | WBoth(n: nat)       // stream credit taken too, frame not yet queued
    | WGiveBack(n: nat)   // stream credit was short, or queueing failed

  /** Where the bytes of one channel are, and the receiving channel's flags. `gone` bytes never
      return stream credit. */
  datatype Chan = Chan(window: nat, pipe: Pipe, writer: Writer, transit: nat, stash: nat, ring: nat, gone: nat,
                       closed: bool, drainable: bool, ringClosed: bool)

  /** `owed[g]` is what goroutine g has finished with but not yet counted for the session; `datagram`
      tells the receiving end's transport and `closed` its session's flag. */
  datatype Net = Net(window: nat, datagram: bool, session: Pipe, chans: seq<Chan>, owed: seq<nat>, lost: nat,
                     closed: bool)

  datatype Event =
    | DeductSession(c: nat, n: nat) | DeductStream(c: nat) | RefundSession(c: nat)
    | QueueFrame(c: nat) | QueueFails(c: nat)
    | Arrive(c: nat, n: nat) | ArriveEarly(c: nat, n: nat)
    | Discard(g: nat, c: nat, n: nat)           // no such channel, or refused by it on a stream transport
    | LoseData(c: nat, n: nat)                  // refused on a datagram transport: the result is ignored
    | PushClosed(c: nat, n: nat)                // the ring was closed after the flags were tested
    | OpenStash(c: nat) | ReleaseStash(g: nat, c: nat)
    | Read(g: nat, c: nat, n: nat) | DrainRing(g: nat, c: nat)
    | FinalizeRing(c: nat)                      // closes a ring that is empty or not announced as drainable
    | CloseChan(c: nat) | Announce(c: nat) | CloseSession
    | CountSession(g: nat) | SessionStep(st: Step) | StreamStep(c: nat, st: Step)

  /** Bytes a channel's writer and receiver account for. */
  function WriterHolds(w: Writer): nat {
    if w.WIdle? then 0 else w.n
  }

  function Outstanding(ch: Chan): nat {
    WriterHolds(ch.writer) + ch.transit + ch.stash + ch.ring
  }

  function AllOutstanding(chans: seq<Chan>): nat {
    if chans == [] then 0 else Outstanding(chans[0]) + AllOutstanding(chans[1..])
  }

  function Sum(ns: seq<nat>): nat {
    if ns == [] then 0 else ns[0] + Sum(ns[1..])
  }

  function NewChan(window: nat, goroutines: nat): Chan {
    Chan(window, NewPipe(window, goroutines), WIdle, 0, 0, 0, 0, false, false, false)
  }

  function Start(window: nat, datagram: bool, streamWindows: seq<nat>, goroutines: nat): Net {
    Net(window, datagram, NewPipe(window, goroutines),
        seq(|streamWindows|, i requires 0 <= i < |streamWindows| => NewChan(streamWindows[i], goroutines)),
        seq(goroutines, _ => 0), 0, false)
  }

  // ---------- what each event does ----------

  predicate Channel(s: Net, c: nat) {
    c < |s.chans|
  }

  predicate Goroutine(s: Net, g: nat) {
    g < |s.owed| && g < |s.session.hands|
  }

  predicate CanHappen(s: Net, e: Event) {
    match e
    case DeductSession(c, n) => Channel(s, c) && s.chans[c].writer.WIdle? && 0 < n <= s.session.send
    case DeductStream(c) => Channel(s, c) && s.chans[c].writer.WSession?
    case RefundSession(c) => Channel(s, c) && s.chans[c].writer.WGiveBack?
    case QueueFrame(c) => Channel(s, c) && s.chans[c].writer.WBoth?
    case QueueFails(c) => Channel(s, c) && s.chans[c].writer.WBoth?
    case Arrive(c, n) => Channel(s, c) && n <= s.chans[c].transit && !s.chans[c].ringClosed
    case ArriveEarly(c, n) => Channel(s, c) && n <= s.chans[c].transit
    case Discard(g, c, n) => Channel(s, c) && Goroutine(s, g) && n <= s.chans[c].transit
    case LoseData(c, n) => Channel(s, c) && n <= s.chans[c].transit && s.datagram && (s.chans[c].closed || s.closed)
    case PushClosed(c, n) => Channel(s, c) && n <= s.chans[c].transit && s.chans[c].ringClosed
    case OpenStash(c) => Channel(s, c)
    case ReleaseStash(g, c) => Channel(s, c) && Goroutine(s, g)
    case Read(g, c, n) => Channel(s, c) && Goroutine(s, g) && n <= s.chans[c].ring
                          && g < |s.chans[c].pipe.hands| && s.chans[c].pipe.hands[g].Idle?
    case DrainRing(g, c) => Channel(s, c) && Goroutine(s, g) && (s.chans[c].closed || s.closed)
    case FinalizeRing(c) => Channel(s, c) && (s.chans[c].closed || s.chans[c].drainable)
    case CloseChan(c) => Channel(s, c)
    case Announce(c) => Channel(s, c)
    case CloseSession => true
    case CountSession(g) => Goroutine(s, g) && s.session.hands[g].Idle?
    case SessionStep(st) => Enabled(s.session, st)
    case StreamStep(c, st) => Channel(s, c) && Enabled(s.chans[c].pipe, st)
  }

  /** The channel an event is about. */
  function Of(e: Event): nat {
    match e
    case DeductSession(c, _) => c
    case DeductStream(c) => c
    case RefundSession(c) => c
    case QueueFrame(c) => c
    case QueueFails(c) => c
    case Arrive(c, _) => c
    case ArriveEarly(c, _) => c
    case Discard(_, c, _) => c
    case LoseData(c, _) => c
    case OpenStash(c) => c
    case ReleaseStash(_, c) => c
    case Read(_, c, _) => c
    case DrainRing(_, c) => c
    case PushClosed(c, _) => c
    case FinalizeRing(c) => c
    case CloseChan(c) => c
    case Announce(c) => c
    case StreamStep(c, _) => c
    case _ => 0
  }

  predicate OfChannel(e: Event) {
    !e.CountSession? && !e.SessionStep? && !e.CloseSession?
  }

  /** What the event does to its channel. */
  function OnChan(s: Net, e: Event): Chan
    requires CanHappen(s, e) && OfChannel(e)
  {
    var ch := s.chans[Of(e)];
    match e
    case DeductSession(_, n) => ch.(writer := WSession(n))
    case DeductStream(_) =>
      if ch.pipe.send >= ch.writer.n then ch.(pipe := Charge(ch.pipe, ch.writer.n), writer := WBoth(ch.writer.n))
      else ch.(writer := WGiveBack(ch.writer.n))
    case RefundSession(_) => ch.(writer := WIdle)
    case QueueFrame(_) => ch.(transit := ch.transit + ch.writer.n, writer := WIdle)
    case QueueFails(_) => ch.(pipe := Refund(ch.pipe, ch.writer.n), writer := WGiveBack(ch.writer.n))
    case Arrive(_, n) => ch.(transit := ch.transit - n, ring := ch.ring + n)
    case ArriveEarly(_, n) => ch.(transit := ch.transit - n, stash := ch.stash + n)
    case Discard(_, _, n) => ch.(transit := ch.transit - n, gone := ch.gone + n)
    case LoseData(_, n) => ch.(transit := ch.transit - n, gone := ch.gone + n)
    case OpenStash(_) => ch.(ring := ch.ring + ch.stash, stash := 0)
    case ReleaseStash(_, _) => ch.(stash := 0, gone := ch.gone + ch.stash)
    case Read(g, _, n) => ch.(ring := ch.ring - n, pipe := Count(ch.pipe, g, n))
    case PushClosed(_, n) => ch.(transit := ch.transit - n, gone := ch.gone + n)
    case DrainRing(_, _) => ch.(ring := 0, gone := ch.gone + ch.ring, ringClosed := true)
    case FinalizeRing(_) =>
      if ch.drainable && ch.ring > 0 then ch else ch.(ring := 0, gone := ch.gone + ch.ring, ringClosed := true)
    case CloseChan(_) => ch.(closed := true)
    case Announce(_) => ch.(drainable := true)
    case StreamStep(_, st) => ch.(pipe := Apply(ch.pipe, st))
  }

  /** Bytes the event hands to its goroutine for crediting. */
  function Credited(s: Net, e: Event): nat
    requires CanHappen(s, e)
  {
    match e
    case Discard(_, _, n) => n
    case Read(_, _, n) => n
    case ReleaseStash(_, c) => s.chans[c].stash
    case DrainRing(_, c) => s.chans[c].ring
    case _ => 0
  }

  predicate Credits(e: Event) {
    e.Discard? || e.Read? || e.ReleaseStash? || e.DrainRing?
  }

  /** Bytes the event loses without crediting anyone. */
  function Lost(s: Net, e: Event): nat
    requires CanHappen(s, e)
  {
    match e
    case LoseData(_, n) => n
    case PushClosed(_, n) => n
    case FinalizeRing(c) => if s.chans[c].drainable then 0 else s.chans[c].ring
    case _ => 0
  }

  /** The three branches that lose credit: a datagram frame refused by a closed channel or session, a
      push that finds the ring closed meanwhile, a filled ring closed without being drained. */
  predicate Loses(s: Net, e: Event)
    requires CanHappen(s, e)
  {
    || (e.LoseData? && e.n > 0)
    || (e.PushClosed? && e.n > 0)
    || (e.FinalizeRing? && !s.chans[e.c].drainable && s.chans[e.c].ring > 0)
  }

  function OnSession(s: Net, e: Event): Pipe
    requires CanHappen(s, e)
  {
    match e
    case CountSession(g) => Count(s.session, g, s.owed[g])
    case SessionStep(st) => Apply(s.session, st)
    case DeductSession(_, n) => Charge(s.session, n)
    case RefundSession(c) => Refund(s.session, s.chans[c].writer.n)
    case _ => s.session
  }

  function OnOwed(s: Net, e: Event): seq<nat>
    requires CanHappen(s, e)
  {
    if e.CountSession? then s.owed[e.g := 0]
    else if Credits(e) then s.owed[e.g := s.owed[e.g] + Credited(s, e)]
    else s.owed
  }

  function Happen(s: Net, e: Event): Net
    requires CanHappen(s, e)
  {
    Net(s.window, s.datagram, OnSession(s, e),
        if OfChannel(e) then s.chans[Of(e) := OnChan(s, e)] else s.chans,
        OnOwed(s, e), s.lost + Lost(s, e), s.closed || e.CloseSession?)
  }

  // ---------- the ledgers ----------

  predicate StreamBalanced(ch: Chan) {
    Total(ch.pipe) + (if ch.writer.WBoth? then ch.writer.n else 0) + ch.transit + ch.stash + ch.ring + ch.gone
      == ch.window
  }

  predicate Balanced(s: Net) {
    && Total(s.session) + AllOutstanding(s.chans) + Sum(s.owed) + s.lost == s.window
    && forall c :: 0 <= c < |s.chans| ==> StreamBalanced(s.chans[c])
  }

  lemma {:induction false} OutstandingUpdate(chans: seq<Chan>, c: nat, ch: Chan)
    requires c < |chans|
    ensures AllOutstanding(chans[c := ch]) == AllOutstanding(chans) - Outstanding(chans[c]) + Outstanding(ch)
  {
    if c == 0 {
      assert chans[c := ch][1..] == chans[1..];
    } else {
      assert chans[c := ch][1..] == chans[1..][c - 1 := ch];
      OutstandingUpdate(chans[1..], c - 1, ch);
    }
  }

  lemma {:induction false} SumUpdate(ns: seq<nat>, i: nat, n: nat)
    requires i < |ns|
    ensures Sum(ns[i := n]) == Sum(ns) - ns[i] + n
  {
    if i == 0 {
      assert ns[i := n][1..] == ns[1..];
    } else {
      assert ns[i := n][1..] == ns[1..][i - 1 := n];
      SumUpdate(ns[1..], i - 1, n);
    }
  }

  /** The events that change the stream's own credit. */
  predicate OnPipe(e: Event) {
    e.DeductStream? || e.QueueFails? || e.Read? || e.StreamStep?
  }

  /** The stream's side of an event. */
  lemma ChanBalanced(s: Net, e: Event)
    requires CanHappen(s, e) && OfChannel(e)
    requires StreamBalanced(s.chans[Of(e)])
    ensures StreamBalanced(OnChan(s, e))
  {
    hide OnChan, StreamBalanced, CanHappen;
    if OnPipe(e) {
      PipeBalanced(s, e);
    } else {
      BytesBalanced(s, e);
    }
  }

  lemma PipeBalanced(s: Net, e: Event)
    requires CanHappen(s, e) && OnPipe(e)
    requires StreamBalanced(s.chans[Of(e)])
    ensures StreamBalanced(OnChan(s, e))
  {
    var ch := s.chans[Of(e)];
    if e.Read? {
      CountAdds(ch.pipe, e.g, e.n);
      hide Total;
    } else if e.StreamStep? {
      StepConserves(ch.pipe, e.st);
      hide Total;
    } else {
      hide Returning;
    }
  }

  lemma BytesBalanced(s: Net, e: Event)
    requires CanHappen(s, e) && OfChannel(e) && !OnPipe(e)
    requires StreamBalanced(s.chans[Of(e)])
    ensures StreamBalanced(OnChan(s, e))
  {
    hide Total;
  }

  /** The session's side of an event: what leaves one account enters another. */
  lemma SessionBalanced(s: Net, e: Event)
    requires CanHappen(s, e)
    ensures var out := if OfChannel(e) then Outstanding(OnChan(s, e)) - Outstanding(s.chans[Of(e)]) else 0;
            Total(OnSession(s, e)) + out + Sum(OnOwed(s, e)) + Lost(s, e) == Total(s.session) + Sum(s.owed)
  {
    match e
    case CountSession(g) =>
      CountAdds(s.session, g, s.owed[g]);
      SumUpdate(s.owed, g, 0);
    case SessionStep(st) => StepConserves(s.session, st);
    case CloseSession =>
    case _ => ChanEventBalanced(s, e);
  }

  lemma ChanEventBalanced(s: Net, e: Event)
    requires CanHappen(s, e) && OfChannel(e)
    ensures Total(OnSession(s, e)) + Outstanding(OnChan(s, e)) + Sum(OnOwed(s, e)) + Lost(s, e)
         == Total(s.session) + Outstanding(s.chans[Of(e)]) + Sum(s.owed)
  {
    hide OnChan, OnSession, Outstanding, Total, Sum, Lost;
    BytesMove(s, e);
    if Credits(e) {
      SumUpdate(s.owed, e.g, s.owed[e.g] + Credited(s, e));
    }
  }

  /** Bytes leave the channel for the session's account, a goroutine's, or nobody's. */
  lemma BytesMove(s: Net, e: Event)
    requires CanHappen(s, e) && OfChannel(e)
    ensures Total(OnSession(s, e)) + Outstanding(OnChan(s, e)) + Credited(s, e) + Lost(s, e)
         == Total(s.session) + Outstanding(s.chans[Of(e)])
  {
    hide Held;
  }

  lemma HappenBalanced(s: Net, e: Event)
    requires Balanced(s) && CanHappen(s, e)
    ensures Balanced(Happen(s, e)) && Happen(s, e).window == s.window
  {
    hide OnChan, OnSession, OnOwed, Lost, CanHappen, StreamBalanced, Outstanding, Total, Sum, AllOutstanding;
    SessionBalanced(s, e);
    if OfChannel(e) {
      InRange(s, e);
      ChanBalanced(s, e);
      OutstandingUpdate(s.chans, Of(e), OnChan(s, e));
    }
  }

  lemma InRange(s: Net, e: Event)
    requires CanHappen(s, e) && OfChannel(e)
    ensures Of(e) < |s.chans|
  {
  }

  function Run(s: Net, events: seq<Event>): Option<Net>
    decreases |events|
  {
    if events == [] then Some(s)
    else if CanHappen(s, events[0]) then Run(Happen(s, events[0]), events[1..])
    else None
  }

  lemma {:induction false} RunBalanced(s: Net, events: seq<Event>)
    requires Balanced(s) && Run(s, events).Some?
    ensures Balanced(Run(s, events).value) && Run(s, events).value.window == s.window
    decreases |events|
  {
    if events != [] {
      HappenBalanced(s, events[0]);
      RunBalanced(Happen(s, events[0]), events[1..]);
    }
  }

  lemma {:induction false} NothingOutstanding(chans: seq<Chan>)
    requires forall c :: 0 <= c < |chans| ==> Outstanding(chans[c]) == 0
    ensures AllOutstanding(chans) == 0
  {
    if chans != [] {
      NothingOutstanding(chans[1..]);
    }
  }

  lemma {:induction false} SumZeros(n: nat)
    ensures Sum(seq(n, _ => 0)) == 0
  {
    if n > 0 {
      SumZeros(n - 1);
      assert seq(n, _ => 0)[1..] == seq(n - 1, _ => 0);
    }
  }

  lemma StartBalanced(window: nat, datagram: bool, streamWindows: seq<nat>, goroutines: nat)
    ensures Balanced(Start(window, datagram, streamWindows, goroutines))
  {
    HeldNone(goroutines);
    SumZeros(goroutines);
    NothingOutstanding(Start(window, datagram, streamWindows, goroutines).chans);
  }

  /** However many channels and goroutines interleave: session credit held, on its
      way back and outstanding never exceeds the session window, and what is missing
      from it is exactly what was lost uncredited, so no byte is credited twice.
      Every stream's own window balances at the same time. */
  lemma SessionLedger(window: nat, datagram: bool, streamWindows: seq<nat>, goroutines: nat, events: seq<Event>)
    requires Run(Start(window, datagram, streamWindows, goroutines), events).Some?
    ensures var s := Run(Start(window, datagram, streamWindows, goroutines), events).value;
            && s.session.send + Returning(s.session) + AllOutstanding(s.chans) + Sum(s.owed) == window - s.lost
            && s.session.send <= window && s.lost <= window
            && forall c :: 0 <= c < |s.chans| ==> StreamBalanced(s.chans[c])
  {
    StartBalanced(window, datagram, streamWindows, goroutines);
    RunBalanced(Start(window, datagram, streamWindows, goroutines), events);
  }

  // ---------- when credit is lost ----------

  /** Some event of the run took a losing branch. */
  predicate HasLoss(s: Net, events: seq<Event>)
    requires Run(s, events).Some?
    decreases |events|
  {
    if events == [] then false
    else Loses(s, events[0]) || HasLoss(Happen(s, events[0]), events[1..])
  }

  /** The session's whole window stays accounted for exactly when no event took a losing branch. */
  lemma {:induction false} NothingLostIff(s: Net, events: seq<Event>)
    requires Run(s, events).Some?
    ensures Run(s, events).value.lost >= s.lost
    ensures Run(s, events).value.lost == s.lost <==> !HasLoss(s, events)
    decreases |events|
  {
    if events != [] {
      var t := Happen(s, events[0]);
      NothingLostIff(t, events[1..]);
      LosesExactly(s, events[0]);
      hide Happen, CanHappen, Loses;
    }
  }

  lemma LosesExactly(s: Net, e: Event)
    requires CanHappen(s, e)
    ensures Happen(s, e).lost >= s.lost && (Happen(s, e).lost > s.lost <==> Loses(s, e))
  {
    hide OnChan, OnSession, OnOwed;
  }

  /** A session whose whole window was lost: nobody can send, now or ever. */
  lemma {:induction false} BlockedForGood(s: Net, events: seq<Event>)
    requires Balanced(s) && s.lost == s.window && Run(s, events).Some?
    ensures var t := Run(s, events).value;
      && t.lost == t.window && t.session.send == 0 && Returning(t.session) == 0 && AllOutstanding(t.chans) == 0
      && forall c: nat, n: nat :: !CanHappen(t, DeductSession(c, n))
  {
    NothingLostIff(s, events);
    RunBalanced(s, events);
    hide Run;
  }

  // ---------- a run that loses everything ----------

  ghost predicate Reached(b: Net, s: Net) {
    exists events :: Run(b, events) == Some(s)
  }

  lemma {:induction false} RunSnoc(b: Net, events: seq<Event>, e: Event)
    requires Run(b, events).Some? && CanHappen(Run(b, events).value, e)
    ensures Run(b, events + [e]) == Some(Happen(Run(b, events).value, e))
    decreases |events|
  {
    hide Happen, CanHappen;
    if events == [] {
      assert [] + [e] == [e] && [e][1..] == [];
    } else {
      assert (events + [e])[1..] == events[1..] + [e];
      RunSnoc(Happen(b, events[0]), events[1..], e);
    }
  }

  lemma ReachedNext(b: Net, s: Net, e: Event)
    requires Reached(b, s) && CanHappen(s, e)
    ensures Reached(b, Happen(s, e))
  {
    var events :| Run(b, events) == Some(s);
    RunSnoc(b, events, e);
  }

  function WithChan(s: Net, c: nat, ch: Chan): Net
    requires c < |s.chans|
  {
    s.(chans := s.chans[c := ch])
  }

  /** One channel writes n bytes, is closed by its reader, and the frame is refused. */
  lemma OneRefused(b: Net, s: Net, c: nat, n: nat) returns (t: Net)
    requires Reached(b, s) && c < |s.chans| && s.datagram && 0 < n <= s.session.send
    requires s.chans[c].writer.WIdle? && n <= s.chans[c].pipe.send && s.chans[c].transit == 0
    ensures Reached(b, t) && t.datagram && t.window == s.window && t.lost == s.lost + n
    ensures t.session == s.session.(send := s.session.send - n) && t.owed == s.owed
    ensures |t.chans| == |s.chans| && forall i :: 0 <= i < |s.chans| && i != c ==> t.chans[i] == s.chans[i]
  {
    hide Reached;
    var ch := s.chans[c];
    var paid := s.(session := Charge(s.session, n));
    ReachedNext(b, s, DeductSession(c, n));
    var ch1 := ch.(writer := WSession(n));
    ReachedNext(b, WithChan(paid, c, ch1), DeductStream(c));
    var ch2 := ch.(pipe := Charge(ch.pipe, n), writer := WBoth(n));
    assert s.chans[c := ch1][c := ch2] == s.chans[c := ch2];
    t := OneSent(b, WithChan(paid, c, ch2), c, n);
  }

  lemma OneSent(b: Net, s: Net, c: nat, n: nat) returns (t: Net)
    requires Reached(b, s) && c < |s.chans| && s.datagram && s.chans[c].writer == WBoth(n) && s.chans[c].transit == 0
    ensures Reached(b, t) && t.datagram && t.window == s.window && t.lost == s.lost + n
    ensures t.session == s.session && t.owed == s.owed
    ensures |t.chans| == |s.chans| && forall i :: 0 <= i < |s.chans| && i != c ==> t.chans[i] == s.chans[i]
  {
    hide Reached;
    var ch := s.chans[c];
    ReachedNext(b, s, QueueFrame(c));
    var ch1 := ch.(writer := WIdle, transit := n);
    ReachedNext(b, WithChan(s, c, ch1), CloseChan(c));
    var ch2 := ch1.(closed := true);
    assert s.chans[c := ch1][c := ch2] == s.chans[c := ch2];
    ReachedNext(b, WithChan(s, c, ch2), LoseData(c, n));
    var ch3 := ch2.(transit := 0, gone := ch.gone + n);
    assert s.chans[c := ch2][c := ch3] == s.chans[c := ch3];
    t := WithChan(s, c, ch3).(lost := s.lost + n);
  }

  /** The channels from k on are as they were, and what the others took is lost. */
  predicate LostSoFar(b: Net, s: Net, k: nat) {
    && s.datagram && s.window == b.window && |s.chans| == |b.chans| && s.owed == b.owed
    && s.lost <= s.window && s.session == b.session.(send := s.window - s.lost)
    && k <= |s.chans| && forall i :: k <= i < |s.chans| ==> s.chans[i] == b.chans[i]
  }

  lemma {:induction false} AllRefused(b: Net, windows: seq<nat>, goroutines: nat, s: Net, k: nat) returns (t: Net)
    requires b == Start(b.window, true, windows, goroutines) && Reached(b, s) && LostSoFar(b, s, k)
    ensures Reached(b, t) && LostSoFar(b, t, |windows|)
    ensures t.lost == s.lost + Min(b.window - s.lost, Sum(windows[k..]))
    decreases |windows| - k
  {
    if k == |windows| {
      t := s;
    } else {
      var w, rest := windows[k], windows[k..];
      assert rest[0] == w && rest[1..] == windows[k + 1..];
      var n := Min(w, s.window - s.lost);
      var u := s;
      if n > 0 {
        u := OneRefused(b, s, k, n);
      }
      hide Reached, Start;
      t := AllRefused(b, windows, goroutines, u, k + 1);
    }
  }

  /**
   On a datagram transport, whenever the stream windows add up to the session window: frames refused
   by closed channels use the whole session window up, and no writer of any channel can ever send again.
   */
  lemma RefusedFramesStallSession(window: nat, streamWindows: seq<nat>, goroutines: nat) returns (s: Net)
    requires Sum(streamWindows) >= window
    ensures Reached(Start(window, true, streamWindows, goroutines), s) && s.lost == window
    ensures s.session.send == 0 && Returning(s.session) == 0 && AllOutstanding(s.chans) == 0
    ensures forall events :: Run(s, events).Some? ==>
      forall c: nat, n: nat :: !CanHappen(Run(s, events).value, DeductSession(c, n))
  {
    var b := Start(window, true, streamWindows, goroutines);
    assert Run(b, []) == Some(b);
    assert streamWindows[0..] == streamWindows;
    s := AllRefused(b, streamWindows, goroutines, b, 0);
    StartBalanced(window, true, streamWindows, goroutines);
    ReachedBalanced(b, s);
    hide Start, Run, CanHappen, Balanced, Reached;
    forall events | Run(s, events).Some?
      ensures forall c: nat, n: nat :: !CanHappen(Run(s, events).value, DeductSession(c, n))
    {
      BlockedForGood(s, events);
    }
    RunNothing(s);
    BlockedForGood(s, []);
  }

  lemma RunNothing(s: Net)
    ensures Run(s, []) == Some(s)
  {
  }

  lemma ReachedBalanced(b: Net, s: Net)
    requires Reached(b, s) && Balanced(b)
    ensures Balanced(s) && s.window == b.window
  {
    var events :| Run(b, events) == Some(s);
    RunBalanced(b, events);
  }
}
