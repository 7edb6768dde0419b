/**
 How credit travels back from a reader to a writer in one flow-control scope, a
 stream or the whole session (flow.go, and the window-update resolution of
 write_scheduler.go): bytes read are counted in `consumed`, moved in lumps to
 `unflushed`, announced by at most one queued window update, which the writer
 goroutine resolves into an amount on the wire. Any number of goroutines do the
 reading, interleaved at every atomic operation.
 */
module CreditPipe {
  import opened Bytes

  /** One reading goroutine inside OnRead and flushUpdate. */
  datatype Hand =
    | Idle
    | Over               // its count reached the threshold
    | Holding(n: nat)    // swapped n out of consumed
    | Added              // n is in unflushed, about to test-and-set the pending flag
    | Won                // set the flag, about to queue the update frame

  /** The writer goroutine resolving an update frame. */
  datatype Resolver =
    | Free
    | Got                // frame taken off the queue
    | Swapped(d: nat)    // d swapped out of unflushed, pending flag not yet cleared

  datatype Pipe = Pipe(send: nat, threshold: nat, consumed: nat, hands: seq<Hand>, unflushed: nat,
                       pending: bool, queued: nat, resolver: Resolver, wire: nat)

  datatype Step =
    | SwapConsumed(t: nat) | AddUnflushed(t: nat) | TestAndSet(t: nat) | Enqueue(t: nat)
    | Dequeue | SwapUnflushed | ClearPending | Deliver(d: nat)

  /** Bytes to read before credit is announced: a quarter of the window, at least one. */
  function Threshold(window: nat): nat {
    if window / 4 == 0 then 1 else window / 4
  }

  function NewPipe(window: nat, threads: nat): Pipe {
    Pipe(window, Threshold(window), 0, seq(threads, _ => Idle), 0, false, 0, Free, 0)
  }

  // ---------- the flow's own operations ----------

  function Charge(p: Pipe, n: nat): Pipe
    requires n <= p.send
  {
    p.(send := p.send - n)
  }

  function Refund(p: Pipe, n: nat): Pipe {
    p.(send := p.send + n)
  }

  /** Goroutine t has read n bytes and counts them. */
  function Count(p: Pipe, t: nat, n: nat): Pipe
    requires t < |p.hands|
  {
    p.(consumed := p.consumed + n, hands := p.hands[t := if p.consumed + n >= p.threshold then Over else Idle])
  }

  predicate Enabled(p: Pipe, st: Step) {
    match st
    case SwapConsumed(t) => t < |p.hands| && p.hands[t].Over?
    case AddUnflushed(t) => t < |p.hands| && p.hands[t].Holding?
    case TestAndSet(t) => t < |p.hands| && p.hands[t].Added?
    case Enqueue(t) => t < |p.hands| && p.hands[t].Won?
    case Dequeue => p.resolver.Free? && p.queued > 0
    case SwapUnflushed => p.resolver.Got?
    case ClearPending => p.resolver.Swapped?
    case Deliver(d) => d <= p.wire
  }

  function Apply(p: Pipe, st: Step): Pipe
    requires Enabled(p, st)
  {
    match st
    case SwapConsumed(t) =>
      p.(consumed := 0, hands := p.hands[t := if p.consumed == 0 then Idle else Holding(p.consumed)])
    case AddUnflushed(t) => p.(unflushed := p.unflushed + p.hands[t].n, hands := p.hands[t := Added])
    case TestAndSet(t) =>
      if p.pending then p.(hands := p.hands[t := Idle]) else p.(pending := true, hands := p.hands[t := Won])
    case Enqueue(t) => p.(queued := p.queued + 1, hands := p.hands[t := Idle])
    case Dequeue => p.(queued := p.queued - 1, resolver := Got)
    case SwapUnflushed => p.(unflushed := 0, resolver := Swapped(p.unflushed))
    case ClearPending => p.(pending := false, wire := p.wire + p.resolver.d, resolver := Free)
    case Deliver(d) => p.(wire := p.wire - d, send := p.send + d)
  }

  // ---------- conservation ----------

  function HeldBy(h: Hand): nat {
    if h.Holding? then h.n else 0
  }

  function Held(hands: seq<Hand>): nat {
    if hands == [] then 0 else HeldBy(hands[0]) + Held(hands[1..])
  }

  lemma {:induction false} HeldUpdate(hands: seq<Hand>, t: nat, h: Hand)
    requires t < |hands|
    ensures Held(hands[t := h]) == Held(hands) - HeldBy(hands[t]) + HeldBy(h)
  {
    if t == 0 {
      assert hands[t := h][1..] == hands[1..];
    } else {
      assert hands[t := h][1..] == hands[1..][t - 1 := h];
      HeldUpdate(hands[1..], t - 1, h);
    }
  }

  lemma {:induction false} HeldNone(threads: nat)
    ensures Held(seq(threads, _ => Idle)) == 0
  {
    if threads > 0 {
      HeldNone(threads - 1);
      assert seq(threads, _ => Idle)[1..] == seq(threads - 1, _ => Idle);
    }
  }

  /** Credit on its way back to the sender. */
  function Returning(p: Pipe): nat {
    p.consumed + Held(p.hands) + p.unflushed + (if p.resolver.Swapped? then p.resolver.d else 0) + p.wire
  }

  function Total(p: Pipe): nat {
    p.send + Returning(p)
  }

  /** No interleaving of the return path creates or destroys credit. */
  lemma StepConserves(p: Pipe, st: Step)
    requires Enabled(p, st)
    ensures Total(Apply(p, st)) == Total(p)
    ensures Apply(p, st).send >= p.send && |Apply(p, st).hands| == |p.hands|
  {
    match st
    case SwapConsumed(t) => HeldUpdate(p.hands, t, if p.consumed == 0 then Idle else Holding(p.consumed));
    case AddUnflushed(t) => HeldUpdate(p.hands, t, Added);
    case TestAndSet(t) => HeldUpdate(p.hands, t, if p.pending then Idle else Won);
    case Enqueue(t) => HeldUpdate(p.hands, t, Idle);
    case _ =>
  }

  /** Counting n bytes that a goroutine has finished with adds exactly n. */
  lemma CountAdds(p: Pipe, t: nat, n: nat)
    requires t < |p.hands| && p.hands[t].Idle?
    ensures Total(Count(p, t, n)) == Total(p) + n
  {
    HeldUpdate(p.hands, t, if p.consumed + n >= p.threshold then Over else Idle);
  }

  // ---------- when announced credit can be left behind ----------

  predicate HasWon(h: Hand) {
    h.Won?
  }

  function Winners(hands: seq<Hand>): nat {
    Tally(HasWon, hands)
  }

  /** At most one update frame per scope exists, exactly while the flag is set. */
  predicate OneFrame(p: Pipe) {
    p.queued + Winners(p.hands) + (if p.resolver.Free? then 0 else 1) == if p.pending then 1 else 0
  }

  lemma StepKeepsOneFrame(p: Pipe, st: Step)
    requires OneFrame(p) && Enabled(p, st)
    ensures OneFrame(Apply(p, st))
  {
    match st
    case SwapConsumed(t) => TallyUpdate(HasWon, p.hands, t, if p.consumed == 0 then Idle else Holding(p.consumed));
    case AddUnflushed(t) => TallyUpdate(HasWon, p.hands, t, Added);
    case TestAndSet(t) => TallyUpdate(HasWon, p.hands, t, if p.pending then Idle else Won);
    case Enqueue(t) => TallyUpdate(HasWon, p.hands, t, Idle);
    case _ =>
  }

  /** Some update frame that has not yet looked at `unflushed` exists or is being made. */
  predicate Announced(p: Pipe) {
    p.queued > 0 || p.resolver.Got? || exists t :: 0 <= t < |p.hands| && (p.hands[t].Added? || p.hands[t].Won?)
  }

  /** Credit sits in `unflushed` and no update frame for it exists or is being made. */
  predicate Stranded(p: Pipe) {
    p.unflushed > 0 && !Announced(p)
  }

  /** A goroutine finds the flag still set although the resolver has already taken
      what was in `unflushed`, and no other goroutine is about to announce. */
  predicate Unlucky(p: Pipe, st: Step) {
    && st.TestAndSet? && p.resolver.Swapped? && p.unflushed > 0
    && forall t :: 0 <= t < |p.hands| && t != st.t ==> !p.hands[t].Added?
  }

  /** Credit is left behind by exactly one kind of step: the failed test-and-set
      between the resolver's swap and its clearing of the flag. */
  lemma StrandedExactlyWhenUnlucky(p: Pipe, st: Step)
    requires OneFrame(p) && !Stranded(p) && Enabled(p, st)
    ensures Stranded(Apply(p, st)) <==> Unlucky(p, st)
  {
    var q := Apply(p, st);
    match st
    case TestAndSet(t) => TestAndSetStrands(p, t);
    case Enqueue(t) => assert q.queued > 0;
    case AddUnflushed(t) => assert q.hands[t].Added?;
    case ClearPending => TallyZero(HasWon, p.hands);
    case SwapConsumed(t) => if p.unflushed > 0 { SwapConsumedAnnounces(p, t); }
    case _ =>
  }

  lemma SwapConsumedAnnounces(p: Pipe, t: nat)
    requires Enabled(p, SwapConsumed(t)) && Announced(p)
    ensures Announced(Apply(p, SwapConsumed(t)))
  {
    if u :| 0 <= u < |p.hands| && (p.hands[u].Added? || p.hands[u].Won?) {
      assert Apply(p, SwapConsumed(t)).hands[u] == p.hands[u];
    }
  }

  lemma TestAndSetStrands(p: Pipe, t: nat)
    requires OneFrame(p) && Enabled(p, TestAndSet(t))
    ensures Stranded(Apply(p, TestAndSet(t))) <==> Unlucky(p, TestAndSet(t))
  {
    var q := Apply(p, TestAndSet(t));
    if !p.pending {
      assert q.hands[t].Won?;
    } else {
      forall u | 0 <= u < |p.hands| && u != t ensures q.hands[u] == p.hands[u] {}
      TallyZero(HasWon, p.hands);
      if w :| 0 <= w < |p.hands| && p.hands[w].Won? {
        assert q.hands[w].Won?;
      } else {
        assert forall u :: 0 <= u < |p.hands| && p.hands[u].Added? && u != t ==> q.hands[u].Added?;
      }
    }
  }
}
