/**
 Coalesced acknowledgements of one channel: goroutines store the cumulative
 offset and queue at most one ACK frame; the writer goroutine clears the pending
 flag and only then loads the offset to send (channel.go, write_scheduler.go).
 Every atomic operation is a step; stores are numbered by `version`.
 */
module AckCoalescing {
  import opened Bytes

  /** A goroutine inside sendAck: offset chosen, offset stored, flag won. */
  datatype Sender = Idle | Chosen(o: nat) | Stored(v: nat) | Won(v: nat)

  /** The writer goroutine resolving an ACK frame: frame taken, flag cleared. */
  datatype Resolver = Free | Got | Cleared

  /** `cumulative` is the receiver's current acknowledgement; `completed` the newest
      version whose sendAck has returned, `loaded` the version last put on the wire. */
  datatype Acks = Acks(cumulative: nat, ackOffset: nat, version: nat, pending: bool, senders: seq<Sender>,
                       queued: nat, resolver: Resolver, wire: seq<nat>, completed: nat, loaded: nat)

  datatype Step =
    | Advance(o: nat) | Choose(t: nat) | Store(t: nat) | StoreDelayed(t: nat) | TestAndSet(t: nat) | Enqueue(t: nat)
    | Dequeue | Clear | Load

  function Start(threads: nat): Acks {
    Acks(0, 0, 0, false, seq(threads, _ => Idle), 0, Free, [], 0, 0)
  }

  predicate Enabled(a: Acks, st: Step) {
    match st
    case Advance(o) => o >= a.cumulative
    case Choose(t) => t < |a.senders| && a.senders[t].Idle?
    case Store(t) => t < |a.senders| && a.senders[t].Chosen?
    case StoreDelayed(t) => t < |a.senders| && a.senders[t].Chosen?
    case TestAndSet(t) => t < |a.senders| && a.senders[t].Stored?
    case Enqueue(t) => t < |a.senders| && a.senders[t].Won?
    case Dequeue => a.resolver.Free? && a.queued > 0
    case Clear => a.resolver.Got?
    case Load => a.resolver.Cleared?
  }

  function Apply(a: Acks, st: Step): Acks
    requires Enabled(a, st)
  {
    match st
    case Advance(o) => a.(cumulative := o)
    case Choose(t) => a.(senders := a.senders[t := Chosen(a.cumulative)])
    case Store(t) =>
      a.(ackOffset := a.senders[t].o, version := a.version + 1, senders := a.senders[t := Stored(a.version + 1)])
    case StoreDelayed(t) =>
      a.(ackOffset := a.senders[t].o, version := a.version + 1, senders := a.senders[t := Idle])
    case TestAndSet(t) =>
      var v := a.senders[t].v;
      if a.pending then a.(senders := a.senders[t := Idle], completed := Max(a.completed, v))
      else a.(pending := true, senders := a.senders[t := Won(v)])
    case Enqueue(t) =>
      a.(queued := a.queued + 1, senders := a.senders[t := Idle], completed := Max(a.completed, a.senders[t].v))
    case Dequeue => a.(queued := a.queued - 1, resolver := Got)
    case Clear => a.(pending := false, resolver := Cleared)
    case Load => a.(wire := a.wire + [a.ackOffset], loaded := a.version, resolver := Free)
  }

  function Exec(a: Acks, steps: seq<Step>): Option<Acks>
    decreases |steps|
  {
    if steps == [] then Some(a)
    else if Enabled(a, steps[0]) then Exec(Apply(a, steps[0]), steps[1..])
    else None
  }

  // ---------- the invariant ----------

  predicate HasWon(s: Sender) {
    s.Won?
  }

  function Winners(senders: seq<Sender>): nat {
    Tally(HasWon, senders)
  }

  /** The flag is set exactly while one frame is being made, queued or taken and not yet cleared. */
  predicate OneFrame(a: Acks) {
    a.queued + Winners(a.senders) + (if a.resolver.Got? then 1 else 0) == if a.pending then 1 else 0
  }

  /** A frame that will still load the offset exists. */
  predicate Coming(a: Acks) {
    a.queued > 0 || Winners(a.senders) > 0 || !a.resolver.Free?
  }

  predicate Truthful(a: Acks) {
    && a.ackOffset <= a.cumulative
    && (forall t :: 0 <= t < |a.senders| && a.senders[t].Chosen? ==> a.senders[t].o <= a.cumulative)
    && (forall i :: 0 <= i < |a.wire| ==> a.wire[i] <= a.cumulative)
  }

  predicate Versioned(a: Acks) {
    && a.completed <= a.version && a.loaded <= a.version
    && (forall t :: 0 <= t < |a.senders| ==>
          (a.senders[t].Stored? ==> a.senders[t].v <= a.version) && (a.senders[t].Won? ==> a.senders[t].v <= a.version))
  }

  predicate Inv(a: Acks) {
    OneFrame(a) && Truthful(a) && Versioned(a) && (a.completed > a.loaded ==> Coming(a))
  }

  function Next(a: Acks, st: Step): Sender
    requires Enabled(a, st) && (st.Choose? || st.Store? || st.StoreDelayed? || st.TestAndSet? || st.Enqueue?)
  {
    Apply(a, st).senders[st.t]
  }

  lemma StepKeeps(a: Acks, st: Step)
    requires Inv(a) && Enabled(a, st)
    ensures Inv(Apply(a, st))
  {
    if st.Choose? || st.Store? || st.StoreDelayed? || st.TestAndSet? || st.Enqueue? {
      TallyUpdate(HasWon, a.senders, st.t, Next(a, st));
      assert Apply(a, st).senders == a.senders[st.t := Next(a, st)];
    }
  }

  lemma {:induction false} ExecKeeps(a: Acks, steps: seq<Step>)
    requires Inv(a) && Exec(a, steps).Some?
    ensures Inv(Exec(a, steps).value)
    decreases |steps|
  {
    if steps != [] {
      StepKeeps(a, steps[0]);
      ExecKeeps(Apply(a, steps[0]), steps[1..]);
    }
  }

  /** In every interleaving: whatever a returned sendAck stored has been superseded by
      or included in a load of the same or a later store, or a frame that is still to
      load exists; no ACK on the wire claims more than was received; and at most one
      frame waits. */
  lemma NoAckIsLost(threads: nat, steps: seq<Step>)
    requires Exec(Start(threads), steps).Some?
    ensures var a := Exec(Start(threads), steps).value;
            && (a.loaded >= a.completed || Coming(a))
            && (forall i :: 0 <= i < |a.wire| ==> a.wire[i] <= a.cumulative)
            && a.queued <= 1
  {
    TallyZero(HasWon, Start(threads).senders);
    ExecKeeps(Start(threads), steps);
  }

  /** Once nobody is inside sendAck and no frame is left, the last ACK sent carries
      the newest stored offset. */
  lemma QuietMeansAcknowledged(threads: nat, steps: seq<Step>)
    requires Exec(Start(threads), steps).Some?
    requires var a := Exec(Start(threads), steps).value;
             !Coming(a) && a.completed == a.version > 0
    ensures var a := Exec(Start(threads), steps).value;
            a.wire != [] && a.wire[|a.wire| - 1] == a.ackOffset
  {
    TallyZero(HasWon, Start(threads).senders);
    ExecKeeps(Start(threads), steps);
    LastLoadOnWire(Start(threads), steps);
  }

  /** The goroutine's choice is the receiver's current acknowledgement, or it has stored it last. */
  predicate Current(a: Acks, t: nat, stored: bool) {
    if stored then a.ackOffset == a.cumulative
    else t < |a.senders| && a.senders[t] == Chosen(a.cumulative)
  }

  /** Steps after which a chosen offset is still the current one: nothing more was received, and nobody
      else stored meanwhile. */
  predicate Undisturbed(st: Step, t: nat, stored: bool) {
    && !st.Advance?
    && (st.Store? || st.StoreDelayed? ==> st.t == t && !stored)
  }

  predicate AllUndisturbed(steps: seq<Step>, t: nat, stored: bool)
    decreases |steps|
  {
    steps == [] ||
    (Undisturbed(steps[0], t, stored)
     && AllUndisturbed(steps[1..], t, stored || ((steps[0].Store? || steps[0].StoreDelayed?) && steps[0].t == t)))
  }

  predicate Stores(steps: seq<Step>, t: nat) {
    exists i :: 0 <= i < |steps| && (steps[i].Store? || steps[i].StoreDelayed?) && steps[i].t == t
  }

  lemma {:induction false} StaysCurrent(a: Acks, steps: seq<Step>, t: nat, stored: bool)
    requires Current(a, t, stored) && AllUndisturbed(steps, t, stored) && Exec(a, steps).Some?
    ensures stored || Stores(steps, t) ==> Exec(a, steps).value.ackOffset == Exec(a, steps).value.cumulative
    decreases |steps|
  {
    if steps != [] {
      var st := steps[0];
      var now := stored || ((st.Store? || st.StoreDelayed?) && st.t == t);
      StaysCurrent(Apply(a, st), steps[1..], t, now);
      if !now && Stores(steps, t) {
        var i :| 0 <= i < |steps| && (steps[i].Store? || steps[i].StoreDelayed?) && steps[i].t == t;
        assert steps[1..][i - 1] == steps[i];
      }
    }
  }

  /**
   If goroutine t chose its offset after the last arrival and was the last to store, then once everything is
   quiet the last ACK on the wire is the receiver's current acknowledgement.
   */
  lemma QuietMeansCurrent(threads: nat, before: seq<Step>, t: nat, after: seq<Step>)
    requires Exec(Start(threads), before + [Choose(t)] + after).Some?
    requires AllUndisturbed(after, t, false) && Stores(after, t)
    requires var a := Exec(Start(threads), before + [Choose(t)] + after).value;
             !Coming(a) && a.completed == a.version
    ensures var a := Exec(Start(threads), before + [Choose(t)] + after).value;
            a.wire != [] && a.wire[|a.wire| - 1] == a.cumulative
  {
    var steps := before + [Choose(t)] + after;
    ExecConcat(Start(threads), before + [Choose(t)], after);
    ExecConcat(Start(threads), before, [Choose(t)]);
    var mid := Exec(Start(threads), before + [Choose(t)]).value;
    var first := Exec(Start(threads), before).value;
    assert Exec(first, [Choose(t)]) == Some(Apply(first, Choose(t)));
    StaysCurrent(mid, after, t, false);
    StoresCount(mid, after, t);
    QuietMeansAcknowledged(threads, steps);
  }

  lemma {:induction false} ExecConcat(a: Acks, p: seq<Step>, q: seq<Step>)
    requires Exec(a, p + q).Some?
    ensures Exec(a, p).Some? && Exec(Exec(a, p).value, q) == Exec(a, p + q)
    decreases |p|
  {
    if p == [] {
      assert p + q == q;
    } else {
      assert (p + q)[1..] == p[1..] + q;
      ExecConcat(Apply(a, p[0]), p[1..], q);
    }
  }

  lemma {:induction false} StoresCount(a: Acks, steps: seq<Step>, t: nat)
    requires Exec(a, steps).Some?
    ensures Exec(a, steps).value.version >= a.version && (Stores(steps, t) ==> Exec(a, steps).value.version > a.version)
    decreases |steps|
  {
    if steps != [] {
      StoresCount(Apply(a, steps[0]), steps[1..], t);
      if Stores(steps, t) {
        var i :| 0 <= i < |steps| && (steps[i].Store? || steps[i].StoreDelayed?) && steps[i].t == t;
        if i > 0 {
          assert steps[1..][i - 1] == steps[i];
        }
      }
    }
  }

  /** The last ACK on the wire is what was stored when it was loaded. */
  predicate WireMatches(a: Acks) {
    a.loaded > 0 && a.loaded == a.version ==> a.wire != [] && a.wire[|a.wire| - 1] == a.ackOffset
  }

  lemma {:induction false} LastLoadOnWire(a: Acks, steps: seq<Step>)
    requires WireMatches(a) && a.loaded <= a.version && Exec(a, steps).Some?
    ensures WireMatches(Exec(a, steps).value)
    decreases |steps|
  {
    if steps != [] {
      LastLoadOnWire(Apply(a, steps[0]), steps[1..]);
    }
  }
}
