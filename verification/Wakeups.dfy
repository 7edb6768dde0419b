/**
 Blocking and waking: writers that wait for credit on a one-token channel
 (flow.go) and a reader that waits for data or the end of the stream
 (channel.go), each interleaved with its wakers at every atomic operation.
 */
module WriterWakeups {
  import opened Bytes

  /** A channel's writer in AcquireCredits. */
  datatype Writer =
    | Top                // about to test whether the channel is closed
    | Checked            // not closed, about to load the credits
    | Loaded(x: nat)     // stream credit loaded
    | Blocked            // found no credit, waiting for a token
    | Take(n: nat)       // about to take session credit
    | Taken(n: nat)      // session credit taken, about to take stream credit
    | Gone               // returned with an error

  /** A goroutine that has added credit and still has writers to wake. */
  datatype Waker = Idle | One(c: nat) | Many(todo: set<nat>)

  datatype Flow = Flow(session: nat, stream: seq<nat>, token: seq<bool>, closed: seq<bool>, writers: seq<Writer>,
                       wakers: seq<Waker>)

  datatype Step =
    | TestClosed(c: nat) | LoadStream(c: nat) | LoadSession(c: nat, desired: nat) | TakeToken(c: nat)
    | DeductSession(c: nat) | DeductStream(c: nat, k: nat)
    | AddStream(k: nat, c: nat, d: nat) | AddSession(k: nat, d: nat) | Wake(k: nat, c: nat)
    | Open(window: nat) | Close(k: nat, c: nat)

  predicate WellFormed(f: Flow) {
    |f.stream| == |f.token| == |f.closed| == |f.writers|
  }

  function Below(n: nat): (r: set<nat>)
    ensures forall c: nat :: c in r <==> c < n
  {
    if n == 0 then {} else Below(n - 1) + {n - 1}
  }

  /** The channels a session-wide wake-up finds: one that is closed may have left the table. */
  function InTable(f: Flow): set<nat>
    requires WellFormed(f)
  {
    set c | c in Below(|f.writers|) && !f.closed[c]
  }

  predicate Owes(w: Waker, c: nat) {
    match w
    case Idle => false
    case One(d) => c == d
    case Many(todo) => c in todo
  }

  function Waking(todo: set<nat>): Waker {
    if todo == {} then Idle else Many(todo)
  }

  function Less(w: Waker, c: nat): Waker {
    match w
    case Many(todo) => Waking(todo - {c})
    case _ => Idle
  }

  predicate Enabled(f: Flow, st: Step) {
    match st
    case TestClosed(c) => c < |f.writers| && f.writers[c].Top?
    case LoadStream(c) => c < |f.writers| && f.writers[c].Checked?
    case LoadSession(c, desired) => c < |f.writers| && f.writers[c].Loaded? && desired > 0
    case TakeToken(c) => c < |f.writers| && f.writers[c].Blocked? && c < |f.token| && f.token[c]
    case DeductSession(c) => c < |f.writers| && f.writers[c].Take?
    case DeductStream(c, k) => c < |f.writers| && f.writers[c].Taken? && k < |f.wakers| && f.wakers[k].Idle?
    case AddStream(k, c, d) => k < |f.wakers| && f.wakers[k].Idle? && c < |f.writers|
    case AddSession(k, d) => k < |f.wakers| && f.wakers[k].Idle?
    case Wake(k, c) => k < |f.wakers| && c < |f.writers| && Owes(f.wakers[k], c)
    case Open(_) => true
    case Close(k, c) => k < |f.wakers| && f.wakers[k].Idle? && c < |f.writers|
  }

  function Apply(f: Flow, st: Step): Flow
    requires WellFormed(f) && Enabled(f, st)
  {
    match st
    case TestClosed(c) => f.(writers := f.writers[c := if f.closed[c] then Gone else Checked])
    case LoadStream(c) => f.(writers := f.writers[c := Loaded(f.stream[c])])
    case LoadSession(c, desired) =>
      var avail := Min(f.writers[c].x, f.session);
      f.(writers := f.writers[c := if avail == 0 then Blocked else Take(Min(desired, avail))])
    case TakeToken(c) => f.(token := f.token[c := false], writers := f.writers[c := Top])
    case DeductSession(c) =>
      var n := f.writers[c].n;
      if f.session < n then f.(writers := f.writers[c := Top])
      else f.(session := f.session - n, writers := f.writers[c := Taken(n)])
    case DeductStream(c, k) =>
      var n := f.writers[c].n;
      if f.stream[c] < n
      then f.(session := f.session + n, writers := f.writers[c := Top], wakers := f.wakers[k := Waking(InTable(f))])
      else f.(stream := f.stream[c := f.stream[c] - n], writers := f.writers[c := Top])
    case AddStream(k, c, d) =>
      f.(stream := f.stream[c := f.stream[c] + d], wakers := f.wakers[k := One(c)])
    case AddSession(k, d) => f.(session := f.session + d, wakers := f.wakers[k := Waking(InTable(f))])
    case Wake(k, c) => f.(token := f.token[c := true], wakers := f.wakers[k := Less(f.wakers[k], c)])
    case Open(window) =>
      f.(stream := f.stream + [window], token := f.token + [false], closed := f.closed + [false],
         writers := f.writers + [Top])
    case Close(k, c) => f.(closed := f.closed[c := true], wakers := f.wakers[k := One(c)])
  }

  /** Somebody who has added credit has yet to wake c's writer. */
  predicate WakeOwed(f: Flow, c: nat) {
    exists k :: 0 <= k < |f.wakers| && Owes(f.wakers[k], c)
  }

  /** What a writer past the test must be woken for: a channel closed since, or credit it did not
      find when it blocked or is about to block. */
  predicate Missed(f: Flow, c: nat)
    requires WellFormed(f) && c < |f.writers|
  {
    var w := f.writers[c];
    || (f.closed[c] && !w.Top? && !w.Gone?)
    || (w.Blocked? && f.stream[c] > 0 && f.session > 0)
    || (w == Loaded(0) && f.stream[c] > 0)
  }

  predicate Safe(f: Flow, c: nat)
    requires WellFormed(f) && c < |f.writers|
  {
    Missed(f, c) ==> f.token[c] || WakeOwed(f, c)
  }

  predicate Inv(f: Flow) {
    WellFormed(f) && forall c :: 0 <= c < |f.writers| ==> Safe(f, c)
  }

  /** Owed wake-ups stay owed until the token is there. */
  lemma OwedStays(f: Flow, st: Step, c: nat)
    requires WellFormed(f) && Enabled(f, st) && c < |f.writers| && WakeOwed(f, c)
    ensures WakeOwed(Apply(f, st), c) || Apply(f, st).token[c]
  {
    var k :| 0 <= k < |f.wakers| && Owes(f.wakers[k], c);
    if st.Wake? && st.k == k && st.c != c {
      LessOwes(f.wakers[k], st.c, c);
    }
    assert st == Wake(k, c) || Owes(Apply(f, st).wakers[k], c);
  }

  lemma LessOwes(w: Waker, d: nat, c: nat)
    requires Owes(w, d) && Owes(w, c) && c != d
    ensures Owes(Less(w, d), c)
  {
    assert c in w.todo - {d};
  }

  lemma WakingOwes(todo: set<nat>, c: nat)
    requires c in todo
    ensures Owes(Waking(todo), c)
  {
    assert todo != {};
  }

  /** A step after which c's writer has to be woken for something new leaves somebody who will. */
  lemma MissedIsOwed(f: Flow, st: Step, c: nat)
    requires WellFormed(f) && Enabled(f, st) && c < |f.writers|
    ensures WellFormed(Apply(f, st))
    ensures Missed(Apply(f, st), c) ==> Missed(f, c) || WakeOwed(Apply(f, st), c)
  {
    hide WakeOwed;
    if st.AddStream? || st.Close? {
      WakesOne(f, st);
    } else if st.AddSession? || (st.DeductStream? && f.stream[st.c] < f.writers[st.c].n) {
      WakesAll(f, st, c);
    }
  }

  lemma WakesOne(f: Flow, st: Step)
    requires WellFormed(f) && Enabled(f, st) && (st.AddStream? || st.Close?)
    ensures WakeOwed(Apply(f, st), st.c)
  {
    assert Owes(Apply(f, st).wakers[st.k], st.c);
  }

  lemma WakesAll(f: Flow, st: Step, c: nat)
    requires WellFormed(f) && Enabled(f, st) && c < |f.writers| && c < |f.closed|
    requires st.AddSession? || (st.DeductStream? && st.c < |f.stream| && f.stream[st.c] < f.writers[st.c].n)
    ensures !f.closed[c] ==> WakeOwed(Apply(f, st), c)
  {
    if !f.closed[c] {
      WakingOwes(InTable(f), c);
      assert Owes(Apply(f, st).wakers[st.k], c);
    }
  }

  /** A token stays until its writer takes it and starts over. */
  lemma TokenStays(f: Flow, st: Step, c: nat)
    requires WellFormed(f) && Enabled(f, st) && c < |f.writers| && c < |f.token| && f.token[c]
    ensures WellFormed(Apply(f, st)) && (Apply(f, st).token[c] || !Missed(Apply(f, st), c))
  {
  }

  lemma StepKeepsOne(f: Flow, st: Step, c: nat)
    requires Inv(f) && Enabled(f, st) && c < |f.writers|
    ensures WellFormed(Apply(f, st)) && Safe(Apply(f, st), c)
  {
    assert Safe(f, c);
    MissedIsOwed(f, st, c);
    if WakeOwed(f, c) {
      OwedStays(f, st, c);
    }
    if f.token[c] {
      TokenStays(f, st, c);
    }
    hide Apply, Enabled, WakeOwed, Missed;
  }

  lemma StepKeeps(f: Flow, st: Step)
    requires Inv(f) && Enabled(f, st)
    ensures Inv(Apply(f, st))
  {
    if st.Open? {
      assert Apply(f, st).writers[|f.writers|] == Top;
    }
    forall c: nat | c < |f.writers| ensures WellFormed(Apply(f, st)) && Safe(Apply(f, st), c) {
      StepKeepsOne(f, st, c);
    }
  }

  function Exec(f: Flow, steps: seq<Step>): Option<Flow>
    decreases |steps|
  {
    if steps == [] then Some(f)
    else if WellFormed(f) && Enabled(f, steps[0]) then Exec(Apply(f, steps[0]), steps[1..])
    else None
  }

  lemma {:induction false} ExecKeeps(f: Flow, steps: seq<Step>)
    requires Inv(f) && Exec(f, steps).Some?
    ensures Inv(Exec(f, steps).value)
    decreases |steps|
  {
    if steps != [] {
      StepKeeps(f, steps[0]);
      ExecKeeps(Apply(f, steps[0]), steps[1..]);
    }
  }

  function Start(session: nat, streams: seq<nat>, wakers: nat): Flow {
    Flow(session, streams, seq(|streams|, _ => false), seq(|streams|, _ => false), seq(|streams|, _ => Top),
         seq(wakers, _ => Idle))
  }

  /** No lost wake-up: when nobody is in the middle of adding credit or of closing a channel, a writer
      that is blocked although both credits are positive or its channel is closed has a token waiting. */
  lemma NoWriterSleepsOnCredit(session: nat, streams: seq<nat>, wakers: nat, steps: seq<Step>, c: nat)
    requires Exec(Start(session, streams, wakers), steps).Some?
    requires var f := Exec(Start(session, streams, wakers), steps).value;
             && (forall k :: 0 <= k < |f.wakers| ==> f.wakers[k].Idle?)
             && c < |f.writers| && c < |f.stream| && c < |f.token| && c < |f.closed|
             && f.writers[c].Blocked? && (f.closed[c] || (f.stream[c] > 0 && f.session > 0))
    ensures Exec(Start(session, streams, wakers), steps).value.token[c]
  {
    assert Inv(Start(session, streams, wakers));
    ExecKeeps(Start(session, streams, wakers), steps);
    var f := Exec(Start(session, streams, wakers), steps).value;
    assert Safe(f, c);
  }
}

module ReaderWakeups {
  import opened Bytes

  /** A Read call between two accesses to shared state. */
  datatype Reader =
    | Polling            // about to read the ring
    | FoundEmpty         // ring was empty, about to check for the end
    | NotDone            // end not reached, about to announce that it waits
    | Waiting            // announced, about to read the ring again
    | StillEmpty         // ring still empty, about to check for the end again
    | Blocked            // waiting for a token
    | Woken              // token taken, about to withdraw the announcement
    | GotData            // second look found data, about to withdraw the announcement
    | Draining           // about to discard a token that may have been sent meanwhile

  /** The goroutine that feeds the ring: buffer pushed, reader seen waiting. */
  datatype Feeder = Resting | Pushed | MustWake

  /** The goroutine that reports the end of the stream. */
  datatype Closer = Before | DoneSet | After

  /** `aborted` is what readAborted loads; `closeChan` the channel that Close closes for good. */
  datatype Chan = Chan(ring: nat, readDone: bool, aborted: bool, closeChan: bool, waiting: bool, token: bool,
                       reader: Reader, feeder: Feeder, closers: seq<Closer>)

  datatype Step =
    | Poll | CheckDone | Announce | PollAgain | CheckDoneAgain | TakeToken | Withdraw | Drain | TakeData(n: nat)
    | Push | LoadWaiting | WakeReader | SetDone(k: nat) | WakeAfterDone(k: nat)
    | SetAborted(b: bool) | CloseForGood | Refuse | LeaveClosed

  predicate Enabled(c: Chan, st: Step) {
    match st
    case Poll => c.reader.Polling? && c.ring == 0
    case TakeData(n) => c.reader.Polling? && 0 < n <= c.ring
    case CheckDone => c.reader.FoundEmpty?
    case Announce => c.reader.NotDone?
    case PollAgain => c.reader.Waiting?
    case CheckDoneAgain => c.reader.StillEmpty?
    case TakeToken => c.reader.Blocked? && c.token
    case Withdraw => c.reader.Woken? || c.reader.GotData?
    case Drain => c.reader.Draining?
    case Push => c.feeder.Resting?
    case LoadWaiting => c.feeder.Pushed?
    case WakeReader => c.feeder.MustWake?
    case SetDone(k) => k < |c.closers| && c.closers[k].Before?
    case WakeAfterDone(k) => k < |c.closers| && c.closers[k].DoneSet?
    case SetAborted(b) => b || !c.closeChan
    case CloseForGood => true
    case Refuse => c.aborted && (c.reader.FoundEmpty? || c.reader.StillEmpty?)
    case LeaveClosed => c.closeChan && c.reader.Blocked?
  }

  function Apply(c: Chan, st: Step): Chan
    requires Enabled(c, st)
  {
    match st
    case Poll => c.(reader := FoundEmpty)
    case TakeData(n) => c.(ring := c.ring - n)
    case CheckDone => c.(reader := if c.readDone then Polling else NotDone)
    case Announce => c.(waiting := true, reader := Waiting)
    case PollAgain => if c.ring > 0 then c.(ring := c.ring - 1, reader := GotData) else c.(reader := StillEmpty)
    case CheckDoneAgain => if c.readDone then c.(waiting := false, reader := Polling) else c.(reader := Blocked)
    case TakeToken => c.(token := false, reader := Woken)
    case Withdraw => c.(waiting := false, reader := if c.reader.Woken? then Polling else Draining)
    case Drain => c.(token := false, reader := Polling)
    case Push => c.(ring := c.ring + 1, feeder := Pushed)
    case LoadWaiting => c.(feeder := if c.waiting then MustWake else Resting)
    case WakeReader => c.(token := true, feeder := Resting)
    case SetDone(k) => c.(readDone := true, closers := c.closers[k := DoneSet])
    case WakeAfterDone(k) => c.(token := true, closers := c.closers[k := After])
    case SetAborted(b) => c.(aborted := b)
    case CloseForGood => c.(aborted := true, closeChan := true)
    case Refuse => c.(waiting := c.waiting && c.reader.FoundEmpty?, reader := Polling)
    case LeaveClosed => c.(reader := Polling)
  }

  /** The reader has announced itself and not withdrawn. */
  predicate Announced(c: Chan) {
    c.reader.Waiting? || c.reader.StillEmpty? || c.reader.Blocked? || c.reader.Woken? || c.reader.GotData?
  }

  predicate CloserOwes(c: Chan) {
    exists k :: 0 <= k < |c.closers| && c.closers[k].DoneSet?
  }

  predicate Inv(c: Chan) {
    && (Announced(c) ==> c.waiting)
    && DataSeen(c) && DoneSeen(c)
  }

  lemma CloserOwesStays(c: Chan, st: Step)
    requires Enabled(c, st) && CloserOwes(c)
    ensures CloserOwes(Apply(c, st)) || Apply(c, st).token
  {
    var k :| 0 <= k < |c.closers| && c.closers[k].DoneSet?;
    assert st == WakeAfterDone(k) || Apply(c, st).closers[k].DoneSet?;
  }

  predicate DataSeen(c: Chan) {
    (c.reader.StillEmpty? || c.reader.Blocked?) && c.ring > 0 ==> c.token || !c.feeder.Resting?
  }

  predicate DoneSeen(c: Chan) {
    c.reader.Blocked? && c.readDone ==> c.token || CloserOwes(c)
  }

  lemma DataStaysSeen(c: Chan, st: Step)
    requires DataSeen(c) && (Announced(c) ==> c.waiting) && Enabled(c, st)
    ensures DataSeen(Apply(c, st)) && (Announced(Apply(c, st)) ==> Apply(c, st).waiting)
  {
  }

  lemma DoneStaysSeen(c: Chan, st: Step)
    requires DoneSeen(c) && Enabled(c, st)
    ensures DoneSeen(Apply(c, st))
  {
    if CloserOwes(c) {
      CloserOwesStays(c, st);
    }
    if st.SetDone? {
      assert Apply(c, st).closers[st.k].DoneSet?;
    }
    hide CloserOwes;
  }

  lemma StepKeeps(c: Chan, st: Step)
    requires Inv(c) && Enabled(c, st)
    ensures Inv(Apply(c, st))
  {
    DataStaysSeen(c, st);
    DoneStaysSeen(c, st);
  }

  function Exec(c: Chan, steps: seq<Step>): Option<Chan>
    decreases |steps|
  {
    if steps == [] then Some(c)
    else if Enabled(c, steps[0]) then Exec(Apply(c, steps[0]), steps[1..])
    else None
  }

  lemma {:induction false} ExecKeeps(c: Chan, steps: seq<Step>)
    requires Inv(c) && Exec(c, steps).Some?
    ensures Inv(Exec(c, steps).value)
    decreases |steps|
  {
    if steps != [] {
      StepKeeps(c, steps[0]);
      ExecKeeps(Apply(c, steps[0]), steps[1..]);
    }
  }

  function Start(closers: nat): Chan {
    Chan(0, false, false, false, false, false, Polling, Resting, seq(closers, _ => Before))
  }

  /** No lost wake-up: when neither the feeder nor a closer is in the middle of its
      work, a reader that is blocked although data or the end is there has a token; and one that is
      blocked on a channel closed for good can leave. */
  lemma NoReaderSleepsOnData(closers: nat, steps: seq<Step>)
    requires Exec(Start(closers), steps).Some?
    requires var c := Exec(Start(closers), steps).value;
             && c.feeder.Resting? && (forall k :: 0 <= k < |c.closers| ==> !c.closers[k].DoneSet?)
             && c.reader.Blocked? && (c.ring > 0 || c.readDone || c.closeChan)
    ensures var c := Exec(Start(closers), steps).value;
            (c.ring > 0 || c.readDone ==> c.token) && (c.closeChan ==> Enabled(c, LeaveClosed))
  {
    ExecKeeps(Start(closers), steps);
  }
}
