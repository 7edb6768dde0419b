/**
 Any list of operations on the ring itself, and what it hands out: exactly what the queue of
 RingQueue says, so nothing is lost, repeated or reordered (ringbuffer.go).
 */
module RingRun {
  import opened Bytes
  import opened RingQueue
  import opened Ring

  /** What came out of the ring, and the queue's record of it. */
  ghost predicate Matches(t: Traced, ring: RingBuffer, bytes: seq<byte>, freed: seq<nat>)
    reads ring
  {
    t.queue == ring.contents && t.bytesOut == bytes && Somes(t.headsOut) == freed
  }

  lemma TakingGives(t: Traced, n: nat, freed: seq<nat>)
    requires t.queue != [] && n <= |t.queue[0].buf| && Somes(t.headsOut) == freed
    ensures Somes(Taking(t, n).headsOut) == Given(freed, if n == |t.queue[0].buf| then t.queue[0].head else None)
  {
    if n == |t.queue[0].buf| {
      SomesSnoc(t.headsOut, t.queue[0].head);
    } else {
      assert t.headsOut + [] == t.headsOut;
    }
  }

  method DoOp(ring: RingBuffer, op: Op, bytes: seq<byte>, freed: seq<nat>, ghost t: Traced)
    returns (bytes': seq<byte>, freed': seq<nat>)
    requires ring.Valid() && ring.Open() && Matches(t, ring, bytes, freed)
    modifies ring.Repr
    ensures ring.Valid() && ring.Open() && fresh(ring.Repr - old(ring.Repr))
    ensures Matches(Do(t, op), ring, bytes', freed')
  {
    hide RingBuffer.Valid, Somes;
    bytes', freed' := bytes, freed;
    if t.queue != [] {
      TakingGives(t, 0, freed);
      TakingGives(t, |t.queue[0].buf|, freed);
    }
    match op {
      case Push(b) =>
        var refused := ring.Push(b);
      case Pop =>
        var b := ring.Pop();
        if b.Some? {
          bytes', freed' := bytes + b.value.buf, Given(freed, b.value.head);
        }
      case PartialRead(room) =>
        if t.queue != [] {
          TakingGives(t, Min(room, |t.queue[0].buf|), freed);
        }
        var data, drained := ring.PartialRead(room);
        bytes', freed' := bytes + data, Given(freed, drained);
      case Peek =>
        var buf, drained, ok := ring.Peek();
        freed' := Given(freed, drained);
        assert bytes + [] == bytes;
      case Advance(n) =>
        var found := ring.PeekSlot();
        if found && n <= |ring.cChunk.slots[ring.cHead].buf| {
          if t.queue != [] {
            TakingGives(t, n, freed);
          }
          bytes' := bytes + ring.cChunk.slots[ring.cHead].buf[..n];
          var drained := ring.Advance(n);
          freed' := Given(freed, drained);
        }
    }
  }

  /**
   Any mix of Push, Pop, PartialRead, Peek and Advance on a new ring: the bytes handed out are a prefix
   of the bytes pushed, the allocations handed back a prefix of the allocations pushed, and both are what
   the queue hands out.
   */
  method RunOps(initialCapacity: int, ops: seq<Op>) returns (bytes: seq<byte>, freed: seq<nat>, ghost t: Traced)
    ensures t == DoAll(Traced([], [], [], [], []), ops)
    ensures bytes == t.bytesOut <= t.bytesIn && freed == Somes(t.headsOut) && t.headsOut <= t.headsIn
  {
    hide RingBuffer.Valid, Somes, Do;
    var ring := new RingBuffer(initialCapacity);
    NothingGiven();
    ghost var start := Traced([], [], [], [], []);
    bytes, freed, t := [], [], start;
    for i := 0 to |ops|
      invariant ring.Valid() && ring.Open() && fresh(ring) && fresh(ring.Repr)
      invariant Matches(t, ring, bytes, freed)
      invariant DoAll(t, ops[i..]) == DoAll(start, ops)
    {
      assert ops[i..][0] == ops[i] && ops[i..][1..] == ops[i + 1..];
      bytes, freed := DoOp(ring, ops[i], bytes, freed, t);
      t := Do(t, ops[i]);
    }
    assert ops[|ops|..] == [];
    QueueConserves(start, ops);
  }

  lemma NothingGiven()
    ensures Somes([]) == [] && Conserved(Traced([], [], [], [], []))
  {
  }
}
