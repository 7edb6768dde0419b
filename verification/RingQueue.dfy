/**
 The queue of receive buffers that the ring implements: what each of its
 operations does to the queued buffers, and what any mix of them conserves.
 */
module RingQueue {
  import opened Bytes

  /** A queued buffer: its unread bytes, and the allocation to hand back once they
      are consumed (None for a nil pointer). */
  datatype Buffer = Buffer(buf: seq<byte>, head: Option<nat>)

  /** Consume the first `n` bytes of the oldest buffer; drop it once it is empty. */
  function Consume(q: seq<Buffer>, n: nat): seq<Buffer>
    requires q != [] && n <= |q[0].buf|
  {
    if n == |q[0].buf| then q[1..] else [Buffer(q[0].buf[n..], q[0].head)] + q[1..]
  }

  /** The allocation that consuming `n` bytes hands back. */
  function Returned(q: seq<Buffer>, n: nat): seq<Option<nat>>
    requires q != [] && n <= |q[0].buf|
  {
    if n == |q[0].buf| then [q[0].head] else []
  }

  function Content(q: seq<Buffer>): seq<byte> {
    if q == [] then [] else q[0].buf + Content(q[1..])
  }

  function Heads(q: seq<Buffer>): seq<Option<nat>> {
    seq(|q|, i requires 0 <= i < |q| => q[i].head)
  }

  datatype Op = Push(b: Buffer) | Pop | PartialRead(room: nat) | Peek | Advance(n: nat)

  /** A queue together with everything that went in and came out of it. */
  datatype Traced = Traced(queue: seq<Buffer>, bytesIn: seq<byte>, bytesOut: seq<byte>,
                           headsIn: seq<Option<nat>>, headsOut: seq<Option<nat>>)

  function Taking(t: Traced, n: nat): Traced
    requires t.queue != [] && n <= |t.queue[0].buf|
  {
    t.(queue := Consume(t.queue, n), bytesOut := t.bytesOut + t.queue[0].buf[..n],
    headsOut := t.headsOut + Returned(t.queue, n))
  }

  function Do(t: Traced, op: Op): Traced {
    match op
    case Push(b) => t.(queue := t.queue + [b], bytesIn := t.bytesIn + b.buf, headsIn := t.headsIn + [b.head])
    case Pop => if t.queue == [] then t else Taking(t, |t.queue[0].buf|)
    case PartialRead(room) => if t.queue == [] then t else Taking(t, Min(room, |t.queue[0].buf|))
    case Peek => if t.queue == [] || t.queue[0].buf != [] then t else Taking(t, 0)
    case Advance(n) => if t.queue == [] || n > |t.queue[0].buf| then t else Taking(t, n)
  }

  function DoAll(t: Traced, ops: seq<Op>): Traced
    decreases |ops|
  {
    if ops == [] then t else DoAll(Do(t, ops[0]), ops[1..])
  }

  /** Nothing is lost, duplicated or reordered: what came out, followed by what is
      queued, is what went in, for bytes and for allocations alike. */
  predicate Conserved(t: Traced) {
    t.bytesOut + Content(t.queue) == t.bytesIn && t.headsOut + Heads(t.queue) == t.headsIn
  }

  lemma {:induction false} ContentSnoc(q: seq<Buffer>, b: Buffer)
    ensures Content(q + [b]) == Content(q) + b.buf
  {
    if q == [] {
      assert Content([b]) == b.buf + Content([b][1..]);
    } else {
      assert (q + [b])[1..] == q[1..] + [b];
      ContentSnoc(q[1..], b);
    }
  }

  /** Consuming `n` bytes removes exactly those bytes from the front. */
  lemma ConsumeContent(q: seq<Buffer>, n: nat)
    requires q != [] && n <= |q[0].buf|
    ensures q[0].buf[..n] + Content(Consume(q, n)) == Content(q)
  {
    var buf, rest := q[0].buf, Content(q[1..]);
    if n < |buf| {
      assert Consume(q, n)[1..] == q[1..];
      assert buf[..n] + (buf[n..] + rest) == buf + rest;
    } else {
      assert buf[..n] == buf;
    }
  }

  lemma ConsumeHeads(q: seq<Buffer>, n: nat)
    requires q != [] && n <= |q[0].buf|
    ensures Returned(q, n) + Heads(Consume(q, n)) == Heads(q)
  {
    if n < |q[0].buf| {
      assert Heads(Consume(q, n)) == Heads(q);
    }
  }

  lemma PushConserves(t: Traced, b: Buffer)
    requires Conserved(t)
    ensures Conserved(Do(t, Push(b)))
  {
    ContentSnoc(t.queue, b);
    assert Heads(t.queue + [b]) == Heads(t.queue) + [b.head];
    assert (t.bytesOut + Content(t.queue)) + b.buf == t.bytesOut + (Content(t.queue) + b.buf);
  }

  lemma TakingConserves(t: Traced, n: nat)
    requires Conserved(t) && t.queue != [] && n <= |t.queue[0].buf|
    ensures Conserved(Taking(t, n))
  {
    var out, rest := t.queue[0].buf[..n], Consume(t.queue, n);
    ConsumeContent(t.queue, n);
    ConsumeHeads(t.queue, n);
    assert (t.bytesOut + out) + Content(rest) == t.bytesOut + (out + Content(rest));
    assert (t.headsOut + Returned(t.queue, n)) + Heads(rest) == t.headsOut + (Returned(t.queue, n) + Heads(rest));
  }

  lemma DoConserves(t: Traced, op: Op)
    requires Conserved(t)
    ensures Conserved(Do(t, op))
  {
    match op
    case Push(b) => PushConserves(t, b);
    case Pop => if t.queue != [] { TakingConserves(t, |t.queue[0].buf|); }
    case PartialRead(room) => if t.queue != [] { TakingConserves(t, Min(room, |t.queue[0].buf|)); }
    case Peek => if t.queue != [] && t.queue[0].buf == [] { TakingConserves(t, 0); }
    case Advance(n) => if t.queue != [] && n <= |t.queue[0].buf| { TakingConserves(t, n); }
  }

  /** Any mix of operations hands the bytes out in order and every allocation back
      exactly once, in order. */
  lemma {:induction false} QueueConserves(t: Traced, ops: seq<Op>)
    requires Conserved(t)
    ensures Conserved(DoAll(t, ops))
    ensures DoAll(t, ops).bytesOut <= DoAll(t, ops).bytesIn
    ensures DoAll(t, ops).headsOut <= DoAll(t, ops).headsIn
    decreases |ops|
  {
    if ops != [] {
      DoConserves(t, ops[0]);
      QueueConserves(Do(t, ops[0]), ops[1..]);
    }
  }

  // ---------- allocations ----------

  /** The allocations that are not nil. */
  function Somes(heads: seq<Option<nat>>): seq<nat> {
    if heads == [] then []
    else
      var last := heads[|heads| - 1];
      Somes(heads[..|heads| - 1]) + if last.Some? then [last.value] else []
  }

  lemma SomesSnoc(heads: seq<Option<nat>>, h: Option<nat>)
    ensures Somes(heads + [h]) == Somes(heads) + if h.Some? then [h.value] else []
  {
    assert (heads + [h])[..|heads + [h]| - 1] == heads;
  }

  lemma {:induction false} SomesCons(h: Option<nat>, heads: seq<Option<nat>>)
    ensures Somes([h] + heads) == (if h.Some? then [h.value] else []) + Somes(heads)
  {
    if heads == [] {
      SomesSnoc([], h);
      assert [] + [h] == [h] + heads;
    } else {
      var n := |heads| - 1;
      SomesCons(h, heads[..n]);
      SomesSnoc([h] + heads[..n], heads[n]);
      assert [h] + heads == ([h] + heads[..n]) + [heads[n]];
    }
  }

  function Given(freed: seq<nat>, h: Option<nat>): seq<nat> {
    if h.Some? then freed + [h.value] else freed
  }

  /** The allocation of one buffer, if it has one. */
  function HeadOf(b: Buffer): multiset<nat> {
    if b.head.Some? then multiset{b.head.value} else multiset{}
  }

  /** The allocations of the queued buffers. */
  function Allocations(q: seq<Buffer>): seq<nat> {
    Somes(Heads(q))
  }

  lemma AllocationsSnoc(q: seq<Buffer>, b: Buffer)
    ensures Allocations(q + [b]) == Given(Allocations(q), b.head)
    ensures multiset(Allocations(q + [b])) == multiset(Allocations(q)) + HeadOf(b)
  {
    SomesSnoc(Heads(q), b.head);
    assert Heads(q + [b]) == Heads(q) + [b.head];
  }

  lemma GivenCounts(freed: seq<nat>, b: Buffer)
    ensures multiset(Given(freed, b.head)) == multiset(freed) + HeadOf(b)
  {
  }

  /** What consuming hands back comes first in the queue. */
  lemma ConsumeAllocations(q: seq<Buffer>, n: nat, freed: seq<nat>)
    requires q != [] && n <= |q[0].buf|
    ensures Given(freed, if n == |q[0].buf| then q[0].head else None) + Allocations(Consume(q, n))
         == freed + Allocations(q)
  {
    hide Somes;
    ConsumeHeads(q, n);
    if n == |q[0].buf| {
      SomesCons(q[0].head, Heads(q[1..]));
      assert Heads(q) == [q[0].head] + Heads(q[1..]);
    } else {
      assert Heads(Consume(q, n)) == Heads(q);
    }
  }

  lemma NoAllocations()
    ensures Allocations([]) == []
  {
  }
}
