/**
 The credit ledger of one stream on an ordered, lossless transport: a writer that
 is charged before it sends, bytes outstanding until the application reads them,
 and the return path of CreditPipe. All theorems are about every interleaving.
 */
module CreditStream {
  import opened Bytes
  import opened CreditPipe

  /** `unread` are the bytes charged and not yet read, wherever they are; `readTotal`
      and `granted` count all bytes read and all credit ever put in an update. */
  datatype Stream = Stream(window: nat, pipe: Pipe, unread: nat, readTotal: nat, granted: nat)

  datatype Event = Write(n: nat) | Read(t: nat, n: nat) | Inner(st: Step)

  function Start(window: nat, threads: nat): Stream {
    Stream(window, NewPipe(window, threads), 0, 0, 0)
  }

  predicate CanHappen(s: Stream, e: Event) {
    match e
    case Write(n) => 0 < n <= s.pipe.send
    case Read(t, n) => t < |s.pipe.hands| && s.pipe.hands[t].Idle? && 0 < n <= s.unread
    case Inner(st) => Enabled(s.pipe, st)
  }

  function Happen(s: Stream, e: Event): Stream
    requires CanHappen(s, e)
  {
    match e
    case Write(n) => s.(pipe := Charge(s.pipe, n), unread := s.unread + n)
    case Read(t, n) => s.(pipe := Count(s.pipe, t, n), unread := s.unread - n, readTotal := s.readTotal + n)
    case Inner(st) =>
      s.(pipe := Apply(s.pipe, st), granted := s.granted + if st.ClearPending? then s.pipe.resolver.d else 0)
  }

  function Run(s: Stream, events: seq<Event>): Option<Stream>
    decreases |events|
  {
    if events == [] then Some(s)
    else if CanHappen(s, events[0]) then Run(Happen(s, events[0]), events[1..])
    else None
  }

  predicate Balanced(s: Stream) {
    && Total(s.pipe) + s.unread == s.window
    && s.granted + (Returning(s.pipe) - s.pipe.wire) == s.readTotal
    && OneFrame(s.pipe)
  }

  lemma StartBalanced(window: nat, threads: nat)
    ensures Balanced(Start(window, threads))
  {
    HeldNone(threads);
    TallyZero(HasWon, Start(window, threads).pipe.hands);
  }

  lemma HappenBalanced(s: Stream, e: Event)
    requires Balanced(s) && CanHappen(s, e)
    ensures Balanced(Happen(s, e)) && Happen(s, e).window == s.window
  {
    match e
    case Write(n) =>
    case Read(t, n) =>
      CountAdds(s.pipe, t, n);
      TallyUpdate(HasWon, s.pipe.hands, t, if s.pipe.consumed + n >= s.pipe.threshold then Over else Idle);
    case Inner(st) =>
      StepConserves(s.pipe, st);
      StepKeepsOneFrame(s.pipe, st);
  }

  lemma {:induction false} RunBalanced(s: Stream, events: seq<Event>)
    requires Balanced(s) && Run(s, events).Some?
    ensures Balanced(Run(s, events).value) && Run(s, events).value.window == s.window
    decreases |events|
  {
    if events != [] {
      HappenBalanced(s, events[0]);
      RunBalanced(Happen(s, events[0]), events[1..]);
    }
  }

  const MaxInt32 := 0x7fff_ffff

  /** In every interleaving the window is exactly the credit held, on its way back and
      outstanding: no counter exceeds the window, so none overflows an int32; the
      credit granted never exceeds what was read; at most one update is queued. */
  lemma LedgerBalances(window: nat, threads: nat, events: seq<Event>)
    requires window <= MaxInt32 && Run(Start(window, threads), events).Some?
    ensures var s := Run(Start(window, threads), events).value;
            && s.pipe.send + Returning(s.pipe) + s.unread == window
            && s.pipe.send <= MaxInt32 && s.pipe.consumed <= MaxInt32 && s.pipe.unflushed <= MaxInt32
            && s.pipe.wire <= MaxInt32
            && s.granted <= s.readTotal && s.pipe.queued <= 1
  {
    StartBalanced(window, threads);
    RunBalanced(Start(window, threads), events);
  }

  /** A writer with no credit left is waiting for something that exists. */
  lemma BlockedWriterIsOwed(window: nat, threads: nat, events: seq<Event>)
    requires window > 0 && Run(Start(window, threads), events).Some?
    requires Run(Start(window, threads), events).value.pipe.send == 0
    ensures var s := Run(Start(window, threads), events).value; s.unread > 0 || Returning(s.pipe) > 0
  {
    StartBalanced(window, threads);
    RunBalanced(Start(window, threads), events);
  }

  /** Some test-and-set of the run failed in the resolver's swap-to-clear window. */
  predicate HasUnlucky(s: Stream, events: seq<Event>)
    decreases |events|
  {
    events != [] && CanHappen(s, events[0])
    && ((events[0].Inner? && Unlucky(s.pipe, events[0].st)) || HasUnlucky(Happen(s, events[0]), events[1..]))
  }

  /** Without such a step no credit is ever left behind. */
  lemma {:induction false} NothingStranded(s: Stream, events: seq<Event>)
    requires Balanced(s) && !Stranded(s.pipe) && Run(s, events).Some? && !HasUnlucky(s, events)
    ensures !Stranded(Run(s, events).value.pipe)
    decreases |events|
  {
    if events != [] {
      HappenBalanced(s, events[0]);
      match events[0] {
        case Write(n) =>
        case Read(t, n) => CountKeepsAnnounced(s.pipe, t, n);
        case Inner(st) => StrandedExactlyWhenUnlucky(s.pipe, st);
      }
      NothingStranded(Happen(s, events[0]), events[1..]);
    }
  }

  lemma CountKeepsAnnounced(p: Pipe, t: nat, n: nat)
    requires t < |p.hands| && p.hands[t].Idle?
    ensures Announced(p) ==> Announced(Count(p, t, n))
  {
    if u :| 0 <= u < |p.hands| && (p.hands[u].Added? || p.hands[u].Won?) {
      assert Count(p, t, n).hands[u] == p.hands[u];
    }
  }

  // ---------- the stall ----------

  /** Nobody has anything left to do and the writer has no credit. */
  predicate Stalled(s: Stream) {
    && s.pipe.send == 0 && s.unread == 0 && s.pipe.wire == 0
    && s.pipe.queued == 0 && s.pipe.resolver.Free?
    && (forall t :: 0 <= t < |s.pipe.hands| ==> s.pipe.hands[t].Idle?)
  }

  /** In a stalled stream nothing can happen any more. */
  lemma StalledForGood(s: Stream, e: Event)
    requires Stalled(s) && CanHappen(s, e)
    ensures e == Inner(Deliver(0))
  {
  }

  /** Counted bytes at the threshold have a goroutine that is about to announce them. */
  predicate Watched(p: Pipe) {
    p.consumed >= p.threshold > 0 ==> exists t :: 0 <= t < |p.hands| && p.hands[t].Over?
  }

  lemma HappenWatched(s: Stream, e: Event)
    requires Watched(s.pipe) && CanHappen(s, e)
    ensures Watched(Happen(s, e).pipe) && Happen(s, e).pipe.threshold == s.pipe.threshold
  {
    var p, q := s.pipe, Happen(s, e).pipe;
    if e.Read? && q.consumed >= q.threshold {
      assert q.hands[e.t].Over?;
    } else if q.consumed >= q.threshold > 0 {
      var t :| 0 <= t < |p.hands| && p.hands[t].Over?;
      assert q.hands[t].Over?;
    }
  }

  lemma {:induction false} RunWatched(s: Stream, events: seq<Event>)
    requires Watched(s.pipe) && Run(s, events).Some?
    ensures Watched(Run(s, events).value.pipe) && Run(s, events).value.pipe.threshold == s.pipe.threshold
    decreases |events|
  {
    if events != [] {
      HappenWatched(s, events[0]);
      RunWatched(Happen(s, events[0]), events[1..]);
    }
  }

  /** Only that step leads to a stall: a run without it never ends with the writer out of credit and
      nobody left to bring any. */
  lemma OnlyUnluckyStalls(window: nat, threads: nat, events: seq<Event>)
    requires window > 0 && Run(Start(window, threads), events).Some?
    requires !HasUnlucky(Start(window, threads), events)
    ensures !Stalled(Run(Start(window, threads), events).value)
  {
    StartBalanced(window, threads);
    RunBalanced(Start(window, threads), events);
    RunWatched(Start(window, threads), events);
    NothingStranded(Start(window, threads), events);
    var s := Run(Start(window, threads), events).value;
    if Stalled(s) {
      HeldIdle(s.pipe.hands);
      assert false;
    }
  }

  lemma {:induction false} HeldIdle(hands: seq<Hand>)
    requires forall t :: 0 <= t < |hands| ==> hands[t].Idle?
    ensures Held(hands) == 0
  {
    if hands != [] {
      HeldIdle(hands[1..]);
    }
  }

  lemma ThresholdBound(w: nat)
    requires w >= 2
    ensures 1 <= Threshold(w) && 2 * Threshold(w) <= w
  {
  }

  function FirstUpdate(w: nat): seq<Event>
    requires w >= 2
  {
    ThresholdBound(w);
    var T := Threshold(w);
    [Write(w), Read(0, T), Inner(SwapConsumed(0)), Inner(AddUnflushed(0)), Inner(TestAndSet(0)), Inner(Enqueue(0)),
      Inner(Dequeue)]
  }

  function RacedRead(w: nat): seq<Event>
    requires w >= 2
  {
    ThresholdBound(w);
    var T := Threshold(w);
    [Read(0, w - T), Inner(SwapConsumed(0)), Inner(AddUnflushed(0)), Inner(SwapUnflushed), Inner(ClearPending)]
  }

  function EmptyFrame(w: nat): seq<Event>
    requires w >= 2
  {
    [Inner(TestAndSet(0)), Inner(Enqueue(0)), Inner(Deliver(w)), Inner(Dequeue)]
  }

  function LostUpdate(w: nat): seq<Event>
    requires w >= 2
  {
    [Write(w), Inner(SwapUnflushed), Read(0, w), Inner(SwapConsumed(0)), Inner(AddUnflushed(0)), Inner(TestAndSet(0)),
      Inner(ClearPending)]
  }

  /** And it does happen, with one reader and whatever the window: a run that reads
      everything ever written, leaves the whole window in `unflushed`, and stalls. */
  lemma StallIsReachable(w: nat)
    requires w >= 2
    ensures var run := FirstUpdate(w) + (RacedRead(w) + (EmptyFrame(w) + (LostUpdate(w) + [])));
            var s := Run(Start(w, 1), run);
            s.Some? && Stalled(s.value) && s.value.pipe.unflushed == w && s.value.readTotal == 2 * w
  {
    FirstUpdateRuns(w, RacedRead(w) + (EmptyFrame(w) + (LostUpdate(w) + [])));
    RacedReadRuns(w, EmptyFrame(w) + (LostUpdate(w) + []));
    EmptyFrameRuns(w, LostUpdate(w) + []);
    LostUpdateRuns(w, []);
  }

  /** A stream of window w with one reader. */
  function One(w: nat, send: nat, consumed: nat, hand: Hand, unflushed: nat, pending: bool, queued: nat,
               resolver: Resolver, wire: nat, unread: nat, readTotal: nat, granted: nat): Stream
  {
    Stream(w, Pipe(send, Threshold(w), consumed, [hand], unflushed, pending, queued, resolver, wire), unread,
      readTotal, granted)
  }

  function AfterFirst(w: nat): Stream
    requires w >= 2
  {
    var T := Threshold(w);
    One(w, 0, 0, Idle, T, true, 0, Got, 0, w - T, T, 0)
  }

  function AfterRaced(w: nat): Stream {
    One(w, 0, 0, Added, 0, false, 0, Free, w, 0, w, w)
  }

  function AfterEmpty(w: nat): Stream {
    One(w, w, 0, Idle, 0, true, 0, Got, 0, 0, w, w)
  }

  function AfterLost(w: nat): Stream {
    One(w, 0, 0, Idle, w, false, 0, Free, 0, 0, 2 * w, w)
  }

  lemma Next(s: Stream, e: Event, rest: seq<Event>, next: Stream)
    requires CanHappen(s, e) && Happen(s, e) == next
    ensures Run(s, [e] + rest) == Run(next, rest)
  {
    assert ([e] + rest)[1..] == rest;
  }

  /** One window written, a threshold of it read and announced, its update frame taken up. */
  lemma FirstUpdateRuns(w: nat, rest: seq<Event>)
    requires w >= 2
    ensures Run(Start(w, 1), FirstUpdate(w) + rest) == Run(AfterFirst(w), rest)
  {
    hide Run, Threshold;
    ThresholdBound(w);
    var T := Threshold(w);
    var r7 := rest;
    var r6 := [Inner(Dequeue)] + r7;
    var r5 := [Inner(Enqueue(0))] + r6;
    var r4 := [Inner(TestAndSet(0))] + r5;
    var r3 := [Inner(AddUnflushed(0))] + r4;
    var r2 := [Inner(SwapConsumed(0))] + r3;
    var r1 := [Read(0, T)] + r2;
    var r0 := [Write(w)] + r1;
    var s1 := One(w, 0, 0, Idle, 0, false, 0, Free, 0, w, 0, 0);
    Next(Start(w, 1), Write(w), r1, s1);
    var s2 := One(w, 0, T, Over, 0, false, 0, Free, 0, w - T, T, 0);
    Next(s1, Read(0, T), r2, s2);
    var s3 := One(w, 0, 0, Holding(T), 0, false, 0, Free, 0, w - T, T, 0);
    Next(s2, Inner(SwapConsumed(0)), r3, s3);
    var s4 := One(w, 0, 0, Added, T, false, 0, Free, 0, w - T, T, 0);
    Next(s3, Inner(AddUnflushed(0)), r4, s4);
    var s5 := One(w, 0, 0, Won, T, true, 0, Free, 0, w - T, T, 0);
    Next(s4, Inner(TestAndSet(0)), r5, s5);
    var s6 := One(w, 0, 0, Idle, T, true, 1, Free, 0, w - T, T, 0);
    Next(s5, Inner(Enqueue(0)), r6, s6);
    Next(s6, Inner(Dequeue), r7, AfterFirst(w));
    assert r0 == FirstUpdate(w) + rest;
  }

  /** The rest is read and added just before that frame takes everything. */
  lemma RacedReadRuns(w: nat, rest: seq<Event>)
    requires w >= 2
    ensures Run(AfterFirst(w), RacedRead(w) + rest) == Run(AfterRaced(w), rest)
  {
    hide Run, Threshold;
    ThresholdBound(w);
    var T := Threshold(w);
    var r5 := rest;
    var r4 := [Inner(ClearPending)] + r5;
    var r3 := [Inner(SwapUnflushed)] + r4;
    var r2 := [Inner(AddUnflushed(0))] + r3;
    var r1 := [Inner(SwapConsumed(0))] + r2;
    var r0 := [Read(0, w - T)] + r1;
    var s1 := One(w, 0, w - T, Over, T, true, 0, Got, 0, 0, w, 0);
    Next(AfterFirst(w), Read(0, w - T), r1, s1);
    var s2 := One(w, 0, 0, Holding(w - T), T, true, 0, Got, 0, 0, w, 0);
    Next(s1, Inner(SwapConsumed(0)), r2, s2);
    var s3 := One(w, 0, 0, Added, w, true, 0, Got, 0, 0, w, 0);
    Next(s2, Inner(AddUnflushed(0)), r3, s3);
    var s4 := One(w, 0, 0, Added, 0, true, 0, Swapped(w), 0, 0, w, 0);
    Next(s3, Inner(SwapUnflushed), r4, s4);
    Next(s4, Inner(ClearPending), r5, AfterRaced(w));
    assert r0 == RacedRead(w) + rest;
  }

  /** The reader announces what has already been granted: a frame with nothing to take. */
  lemma EmptyFrameRuns(w: nat, rest: seq<Event>)
    requires w >= 2
    ensures Run(AfterRaced(w), EmptyFrame(w) + rest) == Run(AfterEmpty(w), rest)
  {
    hide Run, Threshold;
    ThresholdBound(w);
    var r4 := rest;
    var r3 := [Inner(Dequeue)] + r4;
    var r2 := [Inner(Deliver(w))] + r3;
    var r1 := [Inner(Enqueue(0))] + r2;
    var r0 := [Inner(TestAndSet(0))] + r1;
    var s1 := One(w, 0, 0, Won, 0, true, 0, Free, w, 0, w, w);
    Next(AfterRaced(w), Inner(TestAndSet(0)), r1, s1);
    var s2 := One(w, 0, 0, Idle, 0, true, 1, Free, w, 0, w, w);
    Next(s1, Inner(Enqueue(0)), r2, s2);
    var s3 := One(w, w, 0, Idle, 0, true, 1, Free, 0, 0, w, w);
    Next(s2, Inner(Deliver(w)), r3, s3);
    Next(s3, Inner(Dequeue), r4, AfterEmpty(w));
    assert r0 == EmptyFrame(w) + rest;
  }

  /** The next window is read between that frame's swap and its clearing of the flag. */
  lemma LostUpdateRuns(w: nat, rest: seq<Event>)
    requires w >= 2
    ensures Run(AfterEmpty(w), LostUpdate(w) + rest) == Run(AfterLost(w), rest)
  {
    hide Run, Threshold;
    ThresholdBound(w);
    var r7 := rest;
    var r6 := [Inner(ClearPending)] + r7;
    var r5 := [Inner(TestAndSet(0))] + r6;
    var r4 := [Inner(AddUnflushed(0))] + r5;
    var r3 := [Inner(SwapConsumed(0))] + r4;
    var r2 := [Read(0, w)] + r3;
    var r1 := [Inner(SwapUnflushed)] + r2;
    var r0 := [Write(w)] + r1;
    var s1 := One(w, 0, 0, Idle, 0, true, 0, Got, 0, w, w, w);
    Next(AfterEmpty(w), Write(w), r1, s1);
    var s2 := One(w, 0, 0, Idle, 0, true, 0, Swapped(0), 0, w, w, w);
    Next(s1, Inner(SwapUnflushed), r2, s2);
    var s3 := One(w, 0, w, Over, 0, true, 0, Swapped(0), 0, 0, 2 * w, w);
    Next(s2, Read(0, w), r3, s3);
    var s4 := One(w, 0, 0, Holding(w), 0, true, 0, Swapped(0), 0, 0, 2 * w, w);
    Next(s3, Inner(SwapConsumed(0)), r4, s4);
    var s5 := One(w, 0, 0, Added, w, true, 0, Swapped(0), 0, 0, 2 * w, w);
    Next(s4, Inner(AddUnflushed(0)), r5, s5);
    var s6 := One(w, 0, 0, Idle, w, true, 0, Swapped(0), 0, 0, 2 * w, w);
    Next(s5, Inner(TestAndSet(0)), r6, s6);
    Next(s6, Inner(ClearPending), r7, AfterLost(w));
    assert r0 == LostUpdate(w) + rest;
  }
}
