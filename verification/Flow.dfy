/**
 The flow-control counters as the program keeps them (flow.go), one call at a time: the credit a
 writer may still use, the bytes a reader has taken, and the one window update that announces them.
 Each call is a run of the interleaved model's steps with nobody in between, and without
 interleaving the credit a reader owes is always announced.
 */
module Flow {
  import opened Bytes
  import P = CreditPipe

  /** The counters of one scope, a stream or the whole session, at one end. */
  class Scope {
    const threshold: nat
    var sendCredits: int
    var consumed: nat
    var unflushed: nat
    var updPending: bool
    var queued: nat          // window updates of this scope in the control queue
    var down: bool           // the session is closed: control frames are refused

    ghost predicate Valid()
      reads this
    {
      && consumed < threshold
      && queued == (if updPending then 1 else 0)
      && (updPending ==> unflushed > 0)
      && (!down && unflushed > 0 ==> updPending)
    }

    /** The scope in the interleaved model, with one idle reader and an idle resolver. */
    ghost function AsPipe(send: nat, wire: nat): P.Pipe
      reads this
    {
      P.Pipe(send, threshold, consumed, [P.Idle], unflushed, updPending, queued, P.Free, wire)
    }

    constructor (window: nat)
      requires window > 0
      ensures Valid() && sendCredits == window && !down
      ensures AsPipe(window, 0) == P.NewPipe(window, 1)
    {
      threshold := if window / 4 == 0 then 1 else window / 4;
      sendCredits, consumed, unflushed, updPending, queued, down := window, 0, 0, false, 0, false;
    }

    method TryDeduct(n: int) returns (ok: bool)
      modifies this`sendCredits
      ensures ok <==> old(sendCredits) >= n
      ensures sendCredits == if ok then old(sendCredits) - n else old(sendCredits)
    {
      if sendCredits < n {
        return false;
      }
      sendCredits := sendCredits - n;
      ok := true;
    }

    method AddCredits(delta: int)
      modifies this`sendCredits
      ensures sendCredits == old(sendCredits) + if delta <= 0 then 0 else delta
    {
      if delta > 0 {
        sendCredits := sendCredits + delta;
      }
    }

    /** n bytes more were read: at the threshold all that were counted become credit to announce, by one
        update at a time and not once the session is closed. */
    twostate predicate Counted(n: nat)
      reads this
    {
      var over := old(consumed) + n >= threshold;
      && sendCredits == old(sendCredits) && down == old(down)
      && consumed == (if over then 0 else old(consumed) + n)
      && unflushed == old(unflushed) + (if over then old(consumed) + n else 0)
      && updPending == (old(updPending) || (over && !down))
      && queued == old(queued) + (if over && !old(updPending) && !down then 1 else 0)
    }

    /** Counts bytes read; at the threshold they become announced credit. */
    method OnRead(n: nat)
      requires Valid()
      modifies this
      ensures Valid() && Counted(n)
      ensures consumed + unflushed == old(consumed) + old(unflushed) + n
      ensures !down ==> forall send: nat, wire: nat :: AsPipe(send, wire) == ReadAlone(old(AsPipe(send, wire)), n)
    {
      consumed := consumed + n;
      if consumed >= threshold {
        var curr := consumed;
        consumed := 0;
        unflushed := unflushed + curr;
        if !updPending {
          if !down {
            updPending := true;
            queued := queued + 1;
          }
        }
      }
    }

    /** The writer goroutine takes the queued update and fills in its amount. */
    method Resolve() returns (delta: nat)
      requires Valid() && queued > 0
      modifies this
      ensures Valid() && sendCredits == old(sendCredits) && down == old(down)
      ensures delta == old(unflushed) > 0 && unflushed == 0 && consumed == old(consumed) && queued == 0
      ensures forall send: nat, wire: nat :: AsPipe(send, wire + delta) == ResolveAlone(old(AsPipe(send, wire)))
    {
      queued := queued - 1;
      delta := unflushed;
      unflushed := 0;
      updPending := false;
    }
  }

  /** OnRead with nobody in between. */
  ghost function ReadAlone(p: P.Pipe, n: nat): P.Pipe
    requires p.hands == [P.Idle] && p.threshold > 0
  {
    var counted := P.Count(p, 0, n);
    if !counted.hands[0].Over? then counted
    else
      var swapped := P.Apply(counted, P.SwapConsumed(0));
      var added := P.Apply(swapped, P.AddUnflushed(0));
      var tested := P.Apply(added, P.TestAndSet(0));
      if tested.hands[0].Won? then P.Apply(tested, P.Enqueue(0)) else tested
  }

  ghost function ResolveAlone(p: P.Pipe): P.Pipe
    requires p.resolver.Free? && p.queued > 0
  {
    P.Apply(P.Apply(P.Apply(p, P.Dequeue), P.SwapUnflushed), P.ClearPending)
  }

  datatype Acquired = Took(n: nat) | MustWait | Closed

  /** A stream's credit, bounded by the session's when the session has a window. */
  class StreamFlow {
    const own: Scope
    const session: Scope?
    var token: bool          // the one-slot wake-up channel

    /** A window that is not positive takes the default of 1 MiB. */
    constructor (window: int, session: Scope?)
      ensures fresh(own) && own.Valid() && this.session == session && !token
      ensures own.sendCredits == if window <= 0 then 0x10_0000 else window
    {
      own := new Scope(if window <= 0 then 0x10_0000 else window);
      this.session := session;
      token := false;
    }

    ghost function Available(): int
      reads this, own, session
    {
      var s := if session == null then 0x4000_0000 else session.sendCredits;
      if s < own.sendCredits then s else own.sendCredits
    }

    /** Nothing but the credit to send has changed. */
    twostate predicate Untouched()
      reads this, own, session
    {
      && unchanged(own`consumed, own`unflushed, own`updPending, own`queued, own`down)
      && (session != null ==>
            unchanged(session`consumed, session`unflushed, session`updPending, session`queued, session`down))
    }

    /** Takes as much as both windows allow, from both; waits exactly when one of them is used up. */
    method AcquireCredits(desired: nat, closed: bool) returns (r: Acquired)
      requires desired > 0 && session != own
      modifies own, session
      ensures Untouched()
      ensures r.Closed? <==> closed
      ensures r.MustWait? <==> !closed && old(Available()) <= 0
      ensures r.Took? ==> 0 < r.n <= desired && r.n <= old(Available()) && (r.n == desired || r.n == old(Available()))
      ensures r.Took? ==> own.sendCredits == old(own.sendCredits) - r.n >= 0
      ensures r.Took? && session != null ==> session.sendCredits == old(session.sendCredits) - r.n >= 0
      ensures !r.Took? ==> own.sendCredits == old(own.sendCredits)
      ensures !r.Took? && session != null ==> session.sendCredits == old(session.sendCredits)
    {
      if closed {
        return Closed;
      }
      var avail := own.sendCredits;
      var sAvail := 0x4000_0000;
      if session != null {
        sAvail := session.sendCredits;
      }
      if sAvail < avail {
        avail := sAvail;
      }
      if avail <= 0 {
        return MustWait;
      }
      var take := if desired > avail then avail else desired;
      if session != null {
        var taken := session.TryDeduct(take);
      }
      var done := own.TryDeduct(take);
      return Took(take);
    }

    /** Leaves a wake-up for the writer; one waiting already is enough. */
    method WakeWriter()
      modifies this`token
      ensures token
    {
      token := true;
    }

    /** Credit from the peer, and a wake-up for the writer that may be waiting for it. */
    method AddCredits(delta: int)
      modifies this`token, own`sendCredits
      ensures own.sendCredits == old(own.sendCredits) + if delta <= 0 then 0 else delta
      ensures token == (delta > 0 || old(token))
    {
      if delta <= 0 {
        return;
      }
      own.AddCredits(delta);
      WakeWriter();
    }

    /** Undoes an acquisition whose frame could not be queued. */
    method Refund(n: int)
      requires session != own
      modifies this`token, own, session
      ensures Untouched()
      ensures own.sendCredits == old(own.sendCredits) + if n <= 0 then 0 else n
      ensures session != null ==> session.sendCredits == old(session.sendCredits) + if n <= 0 then 0 else n
      ensures token == (n > 0 || old(token))
    {
      if n <= 0 {
        return;
      }
      own.AddCredits(n);
      WakeWriter();
      if session != null {
        session.AddCredits(n);
      }
    }

    /** Bytes read count in both scopes. */
    method OnRead(n: int)
      requires own.Valid() && (session != null ==> session.Valid()) && session != own
      modifies own, session
      ensures own.Valid() && (session != null ==> session.Valid())
      ensures n > 0 ==> own.Counted(n) && (session != null ==> session.Counted(n))
      ensures n <= 0 ==> unchanged(own) && (session != null ==> unchanged(session))
      ensures own.consumed + own.unflushed == old(own.consumed) + old(own.unflushed) + if n <= 0 then 0 else n
      ensures session != null ==>
        session.consumed + session.unflushed == old(session.consumed) + old(session.unflushed) + if n <= 0 then 0 else n
      ensures own.sendCredits == old(own.sendCredits)
      ensures session != null ==> session.sendCredits == old(session.sendCredits)
    {
      if n <= 0 {
        return;
      }
      own.OnRead(n);
      if session != null {
        session.OnRead(n);
      }
    }
  }

  /** Credit for the whole session wakes the writer of every channel in the table, whoever can use it. */
  method AddSessionCredits(session: Scope, channels: seq<StreamFlow>, delta: int)
    modifies session`sendCredits, channels
    ensures session.sendCredits == old(session.sendCredits) + if delta <= 0 then 0 else delta
    ensures forall f <- channels :: f.token == (delta > 0 || old(f.token))
  {
    if delta <= 0 {
      return;
    }
    session.AddCredits(delta);
    for i := 0 to |channels|
      invariant forall k :: 0 <= k < i ==> channels[k].token
      invariant session.sendCredits == old(session.sendCredits) + delta
    {
      channels[i].WakeWriter();
    }
  }

  /** Acquiring and refunding leaves both windows as they were. */
  method AcquireThenRefund(f: StreamFlow, desired: nat, closed: bool)
    requires desired > 0 && f.session != f.own
    modifies f, f.own, f.session
    ensures f.own.sendCredits == old(f.own.sendCredits)
    ensures f.session != null ==> f.session.sendCredits == old(f.session.sendCredits)
  {
    var r := f.AcquireCredits(desired, closed);
    if r.Took? {
      f.Refund(r.n);
    }
  }

  /** One update carried from a reader to its writer: credit moves, none is made or lost. */
  method CarryUpdate(reader: Scope, writer: Scope)
    requires reader.Valid() && reader != writer
    modifies reader, writer`sendCredits
    ensures reader.Valid() && reader.consumed == old(reader.consumed) && reader.down == old(reader.down)
    ensures writer.sendCredits + reader.consumed + reader.unflushed
      == old(writer.sendCredits) + old(reader.consumed) + old(reader.unflushed)
    ensures !reader.down ==> reader.unflushed == 0
    ensures reader.queued == 0 && reader.sendCredits == old(reader.sendCredits)
    ensures old(reader.queued) > 0 ==> reader.unflushed == 0
  {
    if reader.queued > 0 {
      var delta := reader.Resolve();
      writer.AddCredits(delta);
    }
  }

  /**
   One call at a time, a writer without credit whose bytes have all been read is unblocked by the
   update already queued. The interleaved model shows that this is what interleaving can break.
   */
  method UnblockWriter(reader: Scope, writer: Scope, ghost window: nat)
    requires reader.Valid() && !reader.down && reader != writer
    requires window > 0 && reader.threshold == P.Threshold(window)
    requires writer.sendCredits == 0 && reader.consumed + reader.unflushed == window
    modifies reader, writer`sendCredits
    ensures writer.sendCredits > 0 && writer.sendCredits + reader.consumed == window
    ensures reader.consumed < P.Threshold(window)
  {
    CarryUpdate(reader, writer);
  }
}
