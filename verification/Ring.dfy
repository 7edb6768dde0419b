/**
 The receive ring as it is built: a linked list of fixed-size chunks that grows
 at the producer's end, is consumed at the other, and recycles one drained chunk
 through a free slot and small chunks through a pool (ringbuffer.go). Every
 operation is proved against the buffer queue of RingQueue.
 */
module Ring {
  import opened Bytes
  import opened RingQueue

  const MinChunkCap := 16
  const MaxChunkCap := 65536
  const MaxRecycleSlots := 1024
  const Empty := Buffer([], None)

  predicate IsPow2(n: nat) {
    n == 1 || (n > 1 && n % 2 == 0 && IsPow2(n / 2))
  }

  lemma {:induction false} Pow2Gap(a: nat, b: nat)
    requires IsPow2(a) && IsPow2(b) && a < b
    ensures 2 * a <= b
  {
    if a > 1 {
      Pow2Gap(a / 2, b / 2);
    }
  }

  /** Where a chunk is: the n-th chunk ever linked, the free slot, a pool slot, or in an operation's hands. */
  datatype Place = Linked(n: int) | Free | Pooled(j: int) | InHand

  class Chunk {
    const slots: array<Buffer>
    const cap: nat
    var tail: nat
    var next: Chunk?
    /** The first slot not yet consumed, and what the slots from there on hold. */
    ghost var lo: nat
    ghost var view: seq<Buffer>
    ghost var place: Place

    constructor (capacity: nat)
      ensures cap == capacity == slots.Length && tail == 0 && next == null && lo == 0 && view == [] && place == InHand
      ensures fresh(slots)
    {
      slots := new Buffer[capacity](_ => Empty);
      cap := capacity;
      tail := 0;
      next := null;
      lo := 0;
      view := [];
      place := InHand;
    }

    /** The slots really hold `view`. */
    ghost predicate Backed()
      reads this, slots
    {
      lo <= tail <= slots.Length && slots[lo..tail] == view
    }

    /** Clear every slot and rewind the chunk. */
    method Reset()
      modifies this, slots
      ensures tail == 0 && next == null && lo == 0 && view == [] && place == old(place)
      ensures forall k :: 0 <= k < slots.Length ==> slots[k] == Empty
    {
      for i := 0 to slots.Length
        modifies slots
        invariant forall k :: 0 <= k < i ==> slots[k] == Empty
      {
        slots[i] := Empty;
      }
      tail := 0;
      next := null;
      lo := 0;
      view := [];
    }
  }

  class RingBuffer {
    var cChunk: Chunk?
    var cHead: nat
    var cachedTail: nat
    var popped: nat
    var freeChunk: Chunk?
    var pChunk: Chunk?
    var pushed: nat
    var pool: seq<Chunk>

    /** The buffers queued, oldest first. */
    ghost var contents: seq<Buffer>
    /** The linked chunks from consumer to producer, the buffers queued in each, and
        how many chunks were unlinked before them. */
    ghost var live: seq<Chunk>
    ghost var parts: seq<seq<Buffer>>
    ghost var unlinked: nat
    /** How many buffers were queued when the ring was closed. */
    ghost var leftover: nat
    /** Every chunk this ring has ever owned, by its slot array. */
    ghost var owner: map<array<Buffer>, Chunk>
    ghost const maxCap: nat
    ghost var Repr: set<object>

    ghost predicate Owns(c: Chunk)
      reads this
    {
      c in Repr && c.slots in Repr && c.slots in owner && owner[c.slots] == c && c.slots.Length == c.cap
    }

    /** The free chunk and the pooled ones are owned and apart from each other. */
    ghost predicate SparesPlaced()
      reads this, Repr
    {
      && this in Repr
      && (forall j :: 0 <= j < |pool| ==> Owns(pool[j]) && pool[j].place == Pooled(j) && pool[j].cap == MinChunkCap)
      && (freeChunk != null ==> Owns(freeChunk) && freeChunk.place == Free && freeChunk.cap <= MaxRecycleSlots)
    }

    /** The live chunks are owned and apart from each other. */
    ghost predicate LivePlaced()
      reads this, Repr
    {
      forall i :: 0 <= i < |live| ==> Owns(live[i]) && live[i].place == Linked(unlinked + i)
    }

    /** Every chunk's capacity is a power of two within bounds. */
    ghost predicate Sized()
      reads this
    {
      && MaxChunkCap <= maxCap && IsPow2(maxCap)
      && (forall a <- owner :: IsPow2(owner[a].cap) && MinChunkCap <= owner[a].cap <= maxCap)
    }

    /** The list is linked from consumer to producer and every chunk but the last is full. */
    ghost predicate Chained()
      requires LivePlaced()
      reads this, Repr
    {
      && |live| > 0
      && cChunk == live[0] && cChunk.lo == cHead <= cachedTail <= cChunk.tail
      && pChunk == live[|live| - 1] && pChunk.next == null
      && (forall i :: 0 < i < |live| ==> live[i].lo == 0)
      && (forall i :: 0 <= i < |live| - 1 ==> live[i].next == live[i + 1] && live[i].tail == live[i].cap)
    }

    /** Each live chunk holds its part of the queue. */
    ghost predicate Filled()
      requires LivePlaced()
      reads this, Repr
    {
      && |parts| == |live|
      && (forall i :: 0 <= i < |live| ==> live[i].view == parts[i] && live[i].Backed())
    }

    ghost predicate Counted()
      reads this
    {
      contents == Flatten(parts) && popped + |contents| == pushed
    }

    ghost predicate Valid()
      reads this, Repr
    {
      && SparesPlaced() && LivePlaced() && Sized()
      && (if Open() then Chained() && Filled() && Counted()
          else cChunk == null && live == [] && contents == [] && popped + leftover == pushed)
    }

    predicate Open()
      reads this
    {
      pChunk != null
    }

    constructor (initialCapacity: int)
      ensures Valid() && fresh(Repr) && Open() && contents == []
      ensures initialCapacity <= MaxChunkCap ==> maxCap == MaxChunkCap
    {
      hide IsPow2, Flatten;
      var cap, max := InitialCap(initialCapacity);
      var c := new Chunk(cap);
      cChunk, pChunk, freeChunk := c, c, null;
      cHead, cachedTail, popped, pushed := 0, 0, 0, 0;
      pool, contents, live, parts, unlinked, leftover := [], [], [c], [[]], 0, 0;
      maxCap := max;
      owner := map[c.slots := c];
      Repr := {this, c, c.slots};
      new;
      c.place := Linked(0);
      FlattenCons([], []);
    }

    /** The shape of an open ring: every chunk but the last is full, the free chunk and the pooled
        chunks are not in the list, no chunk is in it twice, and capacities are powers of two. */
    lemma Shape()
      requires Valid() && Open()
      ensures forall i :: 0 <= i < |live| - 1 ==> live[i].tail == live[i].cap && live[i].next == live[i + 1]
      ensures freeChunk != null ==> freeChunk !in live && freeChunk !in pool
      ensures forall i, j :: 0 <= i < |live| && 0 <= j < |pool| ==> live[i] != pool[j]
      ensures forall i, j :: 0 <= i < j < |live| ==> live[i] != live[j]
      ensures forall i, j :: 0 <= i < j < |pool| ==> pool[i] != pool[j]
      ensures forall i :: 0 <= i < |live| ==> IsPow2(live[i].cap) && MinChunkCap <= live[i].cap <= maxCap
    {
      hide IsPow2, Filled, Counted;
      forall i | 0 <= i < |live| ensures IsPow2(live[i].cap) && MinChunkCap <= live[i].cap <= maxCap {
        assert Owns(live[i]) && live[i].slots in owner;
      }
    }

    /** Fill the producer's next slot and publish it. */
    method StoreSlot(b: Buffer)
      requires Valid() && Open() && pChunk.tail < pChunk.cap
      modifies this`pushed, this`contents, this`parts, pChunk, pChunk.slots
      ensures Valid() && contents == old(contents) + [b]
    {
      hide Flatten, IsPow2;
      ghost var n := |parts| - 1;
      ghost var init, last := parts[..n], parts[n];
      assert Flatten(init + [last + [b]]) == contents + [b] by {
        assert parts == init + [last];
        FlattenSnoc(init, last);
        FlattenSnoc(init, last + [b]);
      }
      var pc, idx := pChunk, pChunk.tail;
      pc.slots[idx] := b;
      pc.tail := idx + 1;
      pc.view := pc.view + [b];
      pushed := pushed + 1;
      contents := contents + [b];
      parts := init + [last + [b]];
      StorePlaced(b);
      StoreFilled(b);
    }

    /** Only the last linked chunk has changed, by one slot. */
    twostate predicate Stored(b: Buffer)
      requires old(Valid()) && old(Open())
      reads this, Repr
    {
      && unchanged(`cChunk, `cHead, `cachedTail, `popped, `freeChunk, `pChunk, `pool, `live, `unlinked, `owner, `Repr)
      && (forall o <- Repr :: o == this || o == pChunk || o == pChunk.slots || unchanged(o))
      && parts == old(parts[..|parts| - 1] + [parts[|parts| - 1] + [b]])
      && pChunk.place == old(pChunk.place)
    }

    twostate lemma StorePlaced(b: Buffer)
      requires old(Valid()) && old(Open()) && Stored(b)
      requires pChunk.lo == old(pChunk.lo) && pChunk.next == null && pChunk.tail == old(pChunk.tail) + 1
      ensures SparesPlaced() && LivePlaced() && Chained()
    {
      hide Flatten, IsPow2, Filled;
    }

    twostate lemma StoreFilled(b: Buffer)
      requires old(Valid()) && old(Open()) && Stored(b) && LivePlaced()
      requires pChunk.view == old(pChunk.view) + [b] && pChunk.Backed()
      ensures Filled()
    {
      hide Flatten, IsPow2, Sized;
    }

    /** Publish `next` behind the full last chunk. */
    method LinkNext(next: Chunk)
      requires Valid() && Open() && pChunk.tail == pChunk.cap && Spare(next)
      modifies this`pChunk, this`live, this`parts, pChunk`next, next`place
      ensures Valid() && pChunk == next && contents == old(contents) && live == old(live) + [next]
    {
      hide Flatten, IsPow2;
      FlattenSnoc(parts, []);
      pChunk.next := next;
      pChunk := next;
      next.place := Linked(unlinked + |live|);
      live := live + [next];
      parts := parts + [[]];
      LinkPlaced(next);
      LinkChained(next);
    }

    twostate predicate NextLinked(next: Chunk)
      requires old(Valid()) && old(Open()) && old(Spare(next))
      reads this, Repr
    {
      && unchanged(`cChunk, `cHead, `cachedTail, `popped, `freeChunk, `pool, `unlinked, `owner, `Repr)
      && (forall o <- Repr :: o == this || o == old(pChunk) || o == next || unchanged(o))
      && live == old(live) + [next] && parts == old(parts) + [[]] && pChunk == next
      && old(pChunk).place == old(pChunk.place) && next.place == Linked(unlinked + |old(live)|)
    }

    twostate lemma LinkPlaced(next: Chunk)
      requires old(Valid()) && old(Open()) && old(Spare(next)) && NextLinked(next)
      ensures SparesPlaced() && LivePlaced()
    {
      hide Flatten, IsPow2, Filled;
    }

    twostate lemma LinkChained(next: Chunk)
      requires old(Valid()) && old(Open()) && old(Spare(next)) && NextLinked(next) && LivePlaced()
      requires old(pChunk.tail == pChunk.cap)
      requires var pc := old(pChunk);
               pc.next == next && pc.tail == old(pc.tail) && pc.lo == old(pc.lo) && pc.view == old(pc.view)
      requires next.tail == 0 && next.next == null && next.lo == 0 && next.view == []
      ensures Chained() && Filled()
    {
      hide Flatten, IsPow2, Sized, SparesPlaced;
      forall i | 0 <= i < |old(live)|
        ensures live[i] == old(live)[i] && live[i] != next &&
          (i < |old(live)| - 1 ==> live[i] != old(pChunk) && unchanged(live[i]))
        ensures live[i].view == parts[i] && live[i].Backed() && (i > 0 ==> live[i].lo == 0)
      {
        assert old(live[i].place) == Linked(unlinked + i) && old(live[i].Backed());
      }
    }

    /** An owned, rewound chunk that is linked nowhere. */
    ghost predicate Spare(c: Chunk)
      reads this, c
    {
      Owns(c) && c.place == InHand && c.tail == 0 && c.next == null && c.lo == 0 && c.view == []
    }

    /** Whatever happened to other chunks, the queue is as it was. */
    twostate lemma LiveUntouched()
      requires old(Valid()) && SparesPlaced() && Sized() && old(Repr) <= Repr
      requires unchanged(`cChunk, `cHead, `cachedTail, `popped, `pChunk, `pushed, `contents, `live, `parts, `unlinked,
        `leftover)
      requires forall a <- old(owner) :: a in owner && owner[a] == old(owner)[a]
      requires forall i :: 0 <= i < |live| ==> unchanged(live[i]) && unchanged(live[i].slots)
      ensures Valid()
    {
      hide Flatten, IsPow2;
    }

    /** A rewound chunk out of the pool. */
    method TakePooled() returns (c: Chunk)
      requires SparesPlaced() && |pool| > 0
      modifies this`pool, pool[|pool| - 1]
      ensures SparesPlaced() && c == old(pool[|pool| - 1]) && pool == old(pool[..|pool| - 1])
      ensures Spare(c)
    {
      var n := |pool| - 1;
      c := pool[n];
      pool := pool[..n];
      c.tail := 0;
      c.next := null;
      c.lo := 0;
      c.view := [];
      c.place := InHand;
    }

    /** A newly made chunk of the smallest power-of-two size that is large enough. */
    method MakeChunk(capacity: nat) returns (c: Chunk)
      requires SparesPlaced() && Sized() && capacity <= maxCap
      modifies this`owner, this`Repr
      ensures SparesPlaced() && Sized() && fresh(c) && fresh(c.slots) && Spare(c)
      ensures capacity <= c.cap && (c.cap == MinChunkCap || c.cap < 2 * capacity)
      ensures owner == old(owner)[c.slots := c] && Repr == old(Repr) + {c, c.slots}
    {
      var cap := RoundUp(capacity);
      if cap > maxCap {
        Pow2Gap(maxCap, cap);
      }
      c := new Chunk(cap);
      owner := owner[c.slots := c];
      Repr := Repr + {c, c.slots};
    }

    /** Give an unlinked chunk back; only the smallest size goes to the pool. */
    method RecycleChunk(c: Chunk)
      requires SparesPlaced() && Owns(c) && c.place == InHand
      modifies this`pool, c, c.slots
      ensures SparesPlaced()
      ensures pool == if c.cap == MinChunkCap then old(pool) + [c] else old(pool)
      ensures c.cap == MinChunkCap ==>
        c.tail == 0 && c.next == null && c.view == [] && forall k :: 0 <= k < c.slots.Length ==> c.slots[k] == Empty
      ensures c.cap != MinChunkCap ==> unchanged(c, c.slots)
    {
      if c.cap == MinChunkCap {
        c.Reset();
        c.place := Pooled(|pool|);
        pool := pool + [c];
      }
    }

    /** Empty the free slot. */
    method TakeFree() returns (c: Chunk)
      requires SparesPlaced() && freeChunk != null
      modifies this`freeChunk, freeChunk`place
      ensures SparesPlaced() && c == old(freeChunk) && freeChunk == null && Owns(c) && c.place == InHand
    {
      c := freeChunk;
      freeChunk := null;
      c.place := InHand;
    }

    /** Keep a drained chunk for reuse, recycling the one kept before. */
    method PutFree(c: Chunk)
      requires SparesPlaced() && Owns(c) && c.place == InHand && c.cap <= MaxRecycleSlots
      modifies this`freeChunk, this`pool, c`place, freeChunk, if freeChunk == null then {} else {freeChunk.slots}
      ensures SparesPlaced() && freeChunk == c
      ensures pool == old(pool) + if old(freeChunk) != null then Smalls([old(freeChunk)]) else []
    {
      if freeChunk != null {
        var prev := TakeFree();
        RecycleChunk(prev);
      }
      freeChunk := c;
      c.place := Free;
    }

    /** A rewound chunk with room for `capacity` slots, from the pool or newly made. */
    method NewChunk(capacity: nat) returns (c: Chunk)
      requires SparesPlaced() && Sized() && capacity <= maxCap
      modifies this`pool, this`owner, this`Repr, pool
      ensures SparesPlaced() && Sized() && Spare(c) && (fresh(c) || c in old(pool))
      ensures capacity <= c.cap && (c.cap == MinChunkCap || c.cap < 2 * capacity)
      ensures fresh(Repr - old(Repr)) && old(Repr) <= Repr
      ensures forall a <- old(owner) :: a in owner && owner[a] == old(owner)[a]
      ensures if capacity <= MinChunkCap && |old(pool)| > 0
              then c == old(pool[|pool| - 1]) && pool == old(pool[..|pool| - 1])
              else fresh(c) && pool == old(pool)
    {
      if capacity <= MinChunkCap && |pool| > 0 {
        c := TakePooled();
      } else {
        c := MakeChunk(capacity);
      }
    }

    /** A capacity for a request: no smaller, and less than twice as large unless minimal. */
    static predicate Serves(cap: nat, request: nat) {
      request <= cap && (cap == MinChunkCap || cap < 2 * request)
    }

    /** How the ring grows behind a full chunk: small without a backlog, the same size while the backlog is
        less than a chunk, doubled up to the maximum beyond. */
    static predicate Grows(lag: nat, cap: nat, next: nat) {
      && (lag == 0 ==> Serves(next, MinChunkCap))
      && (0 < lag < cap ==> Serves(next, cap))
      && (lag > 0 && lag >= cap ==> Serves(next, if 2 * cap <= MaxChunkCap then 2 * cap else MaxChunkCap))
    }

    /** The chunk to grow by when `lag` buffers wait behind a full chunk of `cap` slots:
        a small one if none wait, else the recycled one, else one up to twice as large. */
    method ObtainNext(lag: nat, cap: nat) returns (next: Chunk)
      requires SparesPlaced() && Sized() && cap <= maxCap
      modifies this`pool, this`owner, this`Repr, this`freeChunk, pool,
               freeChunk, if freeChunk == null then {} else {freeChunk.slots}
      ensures SparesPlaced() && Sized() && Spare(next) && freeChunk == null
      ensures fresh(Repr - old(Repr)) && old(Repr) <= Repr
      ensures forall a <- old(owner) :: a in owner && owner[a] == old(owner)[a]
      ensures lag > 0 && old(freeChunk) != null ==> next == old(freeChunk)
      ensures lag == 0 || old(freeChunk) == null ==> Grows(lag, cap, next.cap)
    {
      hide IsPow2, Smalls, SparesPlaced, Sized;
      FreeFootprint();
      if lag == 0 {
        next := ObtainSmall();
      } else if freeChunk != null {
        next := ReuseFree();
      } else {
        var nextCap := cap;
        if lag >= cap {
          nextCap := if cap * 2 > MaxChunkCap then MaxChunkCap else cap * 2;
        }
        MaxIsLargest();
        next := NewChunk(nextCap);
      }
    }

    lemma FreeFootprint()
      requires SparesPlaced()
      ensures freeChunk != null ==> Owns(freeChunk)
    {
    }

    lemma MaxIsLargest()
      requires Sized()
      ensures MaxChunkCap <= maxCap
    {
      hide IsPow2;
    }

    method ObtainSmall() returns (next: Chunk)
      requires SparesPlaced() && Sized()
      modifies this`pool, this`owner, this`Repr, this`freeChunk, pool,
               freeChunk, if freeChunk == null then {} else {freeChunk.slots}
      ensures SparesPlaced() && Sized() && Spare(next) && freeChunk == null && Serves(next.cap, MinChunkCap)
      ensures var back := if old(freeChunk) != null then Smalls([old(freeChunk)]) else [];
        if old(pool) + back == [] then fresh(next) && pool == [] else old(pool) + back == pool + [next]
      ensures fresh(Repr - old(Repr)) && old(Repr) <= Repr
      ensures forall a <- old(owner) :: a in owner && owner[a] == old(owner)[a]
    {
      hide IsPow2;
      if freeChunk != null {
        var f := TakeFree();
        RecycleChunk(f);
      }
      next := NewChunk(MinChunkCap);
    }

    method ReuseFree() returns (next: Chunk)
      requires SparesPlaced() && Sized() && freeChunk != null
      modifies this`freeChunk, freeChunk, freeChunk.slots
      ensures SparesPlaced() && Sized() && Spare(next) && freeChunk == null && next == old(freeChunk)
    {
      hide IsPow2, Smalls;
      next := TakeFree();
      next.Reset();
    }

    /** Append a buffer. A closed ring refuses it and the caller gets `head` back. */
    method Push(b: Buffer) returns (refused: bool)
      requires Valid()
      modifies Repr
      ensures Valid() && fresh(Repr - old(Repr))
      ensures refused == !old(Open()) && Open() == old(Open())
      ensures contents == if refused then old(contents) else old(contents) + [b]
    {
      if pChunk == null {
        return true;
      }
      assert live[|live| - 1].Backed();
      if pChunk.tail >= pChunk.cap {
        AddChunk();
      }
      StoreSlot(b);
      refused := false;
    }

    lemma LastChunk()
      requires Valid() && Open()
      ensures pChunk.cap <= maxCap && pChunk == live[|live| - 1]
    {
      hide Flatten, IsPow2, Filled, Counted;
      assert Owns(live[|live| - 1]);
    }

    /** Link a next chunk behind the full last one. */
    method AddChunk()
      requires Valid() && Open() && pChunk.tail == pChunk.cap
      modifies Repr
      ensures Valid() && Open() && pChunk.tail < pChunk.cap && contents == old(contents)
      ensures fresh(Repr - old(Repr)) && live == old(live) + [pChunk] && freeChunk == null
      ensures old(contents) != [] && old(freeChunk) != null ==> pChunk == old(freeChunk)
      ensures old(contents) == [] || old(freeChunk) == null ==> Grows(|old(contents)|, old(pChunk.cap), pChunk.cap)
    {
      LastChunk();
      hide Flatten, IsPow2, Filled, Counted, Chained, Sized, Grows;
      var lag := Length();
      var next := FetchNext(lag, pChunk.cap);
      LinkNext(next);
    }

    method FetchNext(lag: nat, cap: nat) returns (next: Chunk)
      requires Valid() && Open() && cap <= maxCap
      modifies this`pool, this`owner, this`Repr, this`freeChunk, pool,
               freeChunk, if freeChunk == null then {} else {freeChunk.slots}
      ensures Valid() && Spare(next) && 0 < next.cap && freeChunk == null
      ensures lag > 0 && old(freeChunk) != null ==> next == old(freeChunk)
      ensures lag == 0 || old(freeChunk) == null ==> Grows(lag, cap, next.cap)
      ensures fresh(Repr - old(Repr)) && old(Repr) <= Repr
      ensures forall i :: 0 <= i < |live| ==> unchanged(live[i])
    {
      hide Flatten, IsPow2, Filled, Counted, Chained;
      next := ObtainNext(lag, cap);
      LiveUntouched();
    }

    /** Slots queued and not yet popped; a closed ring still counts what it was closed with. */
    ghost function Backlog(): nat
      reads this
    {
      if Open() then |contents| else leftover
    }

    method Length() returns (n: nat)
      requires Valid()
      ensures n == Backlog()
    {
      n := 0;
      if pushed >= popped {
        n := pushed - popped;
      }
    }

    // ---------- consumer ----------

    /** Step past the drained first chunk and keep it for reuse if it is small enough. */
    method Unlink()
      requires Valid() && Open() && cHead == cChunk.cap && cChunk.next != null
      modifies this`cChunk, this`cHead, this`cachedTail, this`live, this`parts, this`unlinked, this`freeChunk,
               this`pool, cChunk`place, freeChunk, if freeChunk == null then {} else {freeChunk.slots}
      ensures Valid() && Open() && live == old(live)[1..]
      ensures if old(cChunk.cap) <= MaxRecycleSlots
              then freeChunk == old(cChunk) &&
                pool == old(pool) + (if old(freeChunk) != null then Smalls([old(freeChunk)]) else [])
              else freeChunk == old(freeChunk) && pool == old(pool)
    {
      var cc := cChunk;
      MoveOn();
      if cc.cap <= MaxRecycleSlots {
        KeepChunk(cc);
      }
    }

    method MoveOn()
      requires Valid() && Open() && cHead == cChunk.cap && cChunk.next != null
      modifies this`cChunk, this`cHead, this`cachedTail, this`live, this`parts, this`unlinked, cChunk`place
      ensures Valid() && Open() && |old(live)| > 1 && live == old(live)[1..]
      ensures var cc := old(cChunk); Owns(cc) && cc.place == InHand
    {
      hide IsPow2, Flatten;
      FirstDrained();
      cChunk.place := InHand;
      cChunk := cChunk.next;
      cHead := 0;
      cachedTail := 0;
      live := live[1..];
      parts := parts[1..];
      unlinked := unlinked + 1;
      MovedPlaced();
      MovedChained();
    }

    /** A drained first chunk contributes nothing to the queue. */
    lemma FirstDrained()
      requires Valid() && Open() && cHead == cChunk.cap && cChunk.next != null
      ensures |live| > 1 && contents == Flatten(parts[1..])
    {
      hide IsPow2;
      assert live[0].Backed() && parts[0] == [];
    }

    twostate predicate MovedOn()
      requires old(Valid()) && old(Open()) && old(|live|) > 1
      reads this, Repr
    {
      && unchanged(`pChunk, `freeChunk, `pool, `owner, `Repr)
      && (forall o <- Repr :: o == this || o == old(cChunk) || unchanged(o))
      && live == old(live[1..]) && parts == old(parts[1..]) && unlinked == old(unlinked) + 1
      && cChunk == old(cChunk.next) && cHead == cachedTail == 0
    }

    twostate lemma MovedPlaced()
      requires old(Valid()) && old(Open()) && old(|live|) > 1 && MovedOn()
      ensures SparesPlaced() && LivePlaced()
    {
      hide IsPow2, Flatten, Filled;
    }

    twostate lemma MovedChained()
      requires old(Valid()) && old(Open()) && old(|live|) > 1 && MovedOn() && LivePlaced()
      ensures Chained() && Filled()
    {
      hide IsPow2, Flatten, Sized, SparesPlaced;
      forall i | 0 <= i < |live|
        ensures live[i].lo == 0 && live[i].view == parts[i] && live[i].Backed()
        ensures i < |live| - 1 ==> live[i].next == live[i + 1] && live[i].tail == live[i].cap
        ensures i == |live| - 1 ==> live[i].next == null
      {
        var c := old(live[i + 1]);
        assert unchanged(c) && unchanged(c.slots) && old(c.Backed());
      }
      assert cChunk == live[0] by { assert old(live[0].next == live[1]); }
      assert |live| > 0;
      assert cChunk.lo == 0;
      assert pChunk == live[|live| - 1] && pChunk.next == null;
      assert Chained();
    }

    method KeepChunk(c: Chunk)
      requires Valid() && Open() && Owns(c) && c.place == InHand && c.cap <= MaxRecycleSlots
      modifies this`freeChunk, this`pool, c`place, freeChunk, if freeChunk == null then {} else {freeChunk.slots}
      ensures Valid() && freeChunk == c
      ensures pool == old(pool) + if old(freeChunk) != null then Smalls([old(freeChunk)]) else []
    {
      hide Flatten, IsPow2, Filled, Counted;
      PutFree(c);
      LiveUntouched();
    }

    /** Step over drained chunks to a filled slot, if there is one. */
    method SkipDrained() returns (found: bool)
      requires Valid() && Open()
      modifies Repr
      ensures Valid() && Open() && Repr == old(Repr) && contents == old(contents)
      ensures found ==> cHead < cachedTail
      ensures !found ==> CaughtUp()
    {
      hide IsPow2, Flatten, Filled, Counted, Smalls;
      while cHead >= cachedTail
        invariant Valid() && Open() && Repr == old(Repr) && contents == old(contents)
        decreases |live|
      {
        Reload();
        if cHead < cachedTail {
          break;
        }
        if cHead < cChunk.cap || cChunk.next == null {
          return false;
        }
        FirstWithinCap();
        Unlink();
      }
      found := true;
    }

    /** The consumer has reached the producer. */
    ghost predicate CaughtUp()
      reads this, cChunk
    {
      cChunk != null && cHead == cChunk.tail && (cHead < cChunk.cap || cChunk.next == null)
    }

    /** Find the oldest queued slot; false if the ring is empty. */
    method PeekSlot() returns (found: bool)
      requires Valid()
      modifies Repr
      ensures Valid() && Repr == old(Repr)
      ensures contents == old(contents) && Open() == old(Open())
      ensures found <==> contents != []
      ensures found ==> Open() && cChunk != null && Owns(cChunk) && cHead < cachedTail
      ensures found ==> cHead < cChunk.slots.Length && cChunk.slots[cHead] == contents[0]
    {
      hide IsPow2, Flatten, Filled, Counted;
      if cChunk == null {
        return false;
      }
      found := SkipDrained();
      if found {
        FrontSlot();
      } else {
        EmptyWhenCaughtUp();
      }
    }

    method Reload()
      requires Valid() && Open()
      modifies this`cachedTail
      ensures Valid() && cachedTail == cChunk.tail
    {
      hide IsPow2, Flatten;
      cachedTail := cChunk.tail;
    }

    lemma FirstWithinCap()
      requires Valid() && Open()
      ensures cHead <= cChunk.tail <= cChunk.cap == cChunk.slots.Length
    {
      assert live[0].Backed();
    }

    lemma FrontSlot()
      requires Valid() && Open() && cHead < cachedTail
      ensures cHead < cChunk.slots.Length && contents != [] && cChunk.slots[cHead] == contents[0]
      ensures parts[0] != [] && contents == parts[0] + Flatten(parts[1..])
    {
      hide IsPow2;
      assert live[0].Backed();
      assert parts[0][0] == cChunk.slots[cHead];
    }

    lemma LinkedWhenFull()
      requires Valid() && Open()
      ensures |live| == 1 || (cChunk.next != null && cChunk.tail == cChunk.cap)
    {
      hide IsPow2, Filled, Counted;
      if |live| > 1 {
        assert live[0].next == live[1];
      }
    }

    lemma EmptyWhenCaughtUp()
      requires Valid() && Open() && CaughtUp()
      ensures contents == []
    {
      hide IsPow2;
      assert live[0].Backed();
      LinkedWhenFull();
      assert parts[0] == [] && parts[1..] == [];
      assert Flatten(parts) == parts[0] + Flatten(parts[1..]) == [];
    }

    /** Only the first chunk's part of the queue has changed. */
    twostate predicate FrontChanged(part: seq<Buffer>)
      requires old(Valid()) && old(Open())
      reads this, Repr
    {
      && unchanged(`cChunk, `pChunk, `cachedTail, `freeChunk, `pool, `live, `unlinked, `owner, `Repr)
      && (forall o <- Repr :: o == this || o == cChunk || o == cChunk.slots || unchanged(o))
      && parts == [part] + old(parts[1..])
      && cChunk.place == old(cChunk.place) && cChunk.next == old(cChunk.next) && cChunk.tail == old(cChunk.tail)
    }

    twostate lemma FrontPlaced(part: seq<Buffer>)
      requires old(Valid()) && old(Open()) && FrontChanged(part)
      requires cChunk.lo == cHead <= cachedTail
      ensures SparesPlaced() && LivePlaced() && Chained()
    {
      hide IsPow2, Flatten, Filled;
    }

    twostate lemma FrontFilled(part: seq<Buffer>)
      requires old(Valid()) && old(Open()) && FrontChanged(part) && LivePlaced()
      requires cChunk.view == part && cChunk.Backed()
      ensures Filled()
    {
      hide IsPow2, Flatten, Sized, SparesPlaced;
    }

    /** Remove the oldest slot and hand its allocation back. */
    method PopSlot() returns (head: Option<nat>)
      requires Valid() && Open() && cHead < cachedTail
      modifies this`cHead, this`popped, this`contents, this`parts, cChunk, cChunk.slots
      ensures Valid() && old(contents) != [] && contents == old(contents[1..]) && head == old(contents)[0].head
      ensures old(cHead) < cChunk.slots.Length && cChunk.slots[old(cHead)] == Empty
    {
      hide IsPow2, Flatten;
      FrontSlot();
      ghost var part, rest := parts[0][1..], parts[1..];
      assert Flatten([part] + rest) == contents[1..] by { FlattenCons(part, rest); }
      head := cChunk.slots[cHead].head;
      FrontBacked();
      cChunk.slots[cHead] := Empty;
      cHead := cHead + 1;
      popped := popped + 1;
      cChunk.lo := cHead;
      cChunk.view := part;
      contents := contents[1..];
      parts := [part] + rest;
      FrontPlaced(part);
      FrontFilled(part);
    }

    lemma FrontBacked()
      requires Valid() && Open()
      ensures cChunk.Backed() && cChunk.lo == cHead && cChunk.view == parts[0]
    {
      assert live[0].Backed();
    }

    /** Drop the first `n` unread bytes of the oldest slot. */
    method ShrinkSlot(n: nat)
      requires Valid() && Open() && cHead < cachedTail
      requires contents != [] && n < |contents[0].buf|
      modifies this`contents, this`parts, cChunk, cChunk.slots
      ensures Valid() && contents == Consume(old(contents), n)
    {
      hide IsPow2, Flatten;
      FrontSlot();
      FrontBacked();
      ghost var b := Buffer(contents[0].buf[n..], contents[0].head);
      ghost var part, rest := [b] + parts[0][1..], parts[1..];
      assert Flatten([part] + rest) == Consume(contents, n) by { FlattenCons(part, rest); }
      cChunk.slots[cHead] := Buffer(cChunk.slots[cHead].buf[n..], cChunk.slots[cHead].head);
      cChunk.view := part;
      contents := Consume(contents, n);
      parts := [part] + rest;
      FrontPlaced(part);
      FrontFilled(part);
    }

    /** Remove the oldest buffer. */
    method Pop() returns (b: Option<Buffer>)
      requires Valid()
      modifies Repr
      ensures Valid() && Repr == old(Repr) && Open() == old(Open())
      ensures old(contents) == [] ==> b == None && contents == []
      ensures old(contents) != [] ==> b == Some(old(contents)[0]) && contents == old(contents)[1..]
    {
      hide IsPow2, Flatten, Filled, Counted, Chained;
      var found := PeekSlot();
      if !found {
        return None;
      }
      b := Some(cChunk.slots[cHead]);
      var _ := PopSlot();
    }

    /** Copy up to `room` bytes out of the oldest buffer, removing it once it is empty. */
    method PartialRead(room: nat) returns (data: seq<byte>, drained: Option<nat>)
      requires Valid()
      modifies Repr
      ensures Valid() && Repr == old(Repr) && Open() == old(Open())
      ensures old(contents) == [] ==> data == [] && drained == None && contents == []
      ensures old(contents) != [] ==>
                var n := Min(room, |old(contents)[0].buf|);
                && data == old(contents)[0].buf[..n] && contents == Consume(old(contents), n)
                && drained == if n == |old(contents)[0].buf| then old(contents)[0].head else None
    {
      hide IsPow2, Flatten, Filled, Counted, Chained;
      var found := PeekSlot();
      if !found {
        return [], None;
      }
      var buf := cChunk.slots[cHead].buf;
      var n := Min(room, |buf|);
      data := buf[..n];
      drained := None;
      if n == |buf| {
        drained := PopSlot();
      } else {
        ShrinkSlot(n);
      }
    }

    /** The unread bytes of the oldest buffer; an empty one is removed and handed back instead. */
    method Peek() returns (buf: seq<byte>, drained: Option<nat>, ok: bool)
      requires Valid()
      modifies Repr
      ensures Valid() && Repr == old(Repr) && Open() == old(Open())
      ensures ok <==> old(contents) != []
      ensures !ok ==> buf == [] && drained == None
      ensures ok && old(contents)[0].buf != [] ==>
                buf == old(contents)[0].buf && drained == None && contents == old(contents)
      ensures ok && old(contents)[0].buf == [] ==>
                buf == [] && drained == old(contents)[0].head && contents == old(contents)[1..]
      ensures !ok ==> contents == []
    {
      hide IsPow2, Flatten, Filled, Counted, Chained;
      buf, drained := [], None;
      ok := PeekSlot();
      if ok {
        if |cChunk.slots[cHead].buf| == 0 {
          drained := PopSlot();
        } else {
          buf := cChunk.slots[cHead].buf;
        }
      }
    }

    /** Consume `n` bytes of the buffer Peek returned. */
    method Advance(n: nat) returns (drained: Option<nat>)
      requires Valid() && (contents != [] ==> n <= |contents[0].buf|)
      modifies Repr
      ensures Valid() && Repr == old(Repr) && Open() == old(Open())
      ensures old(contents) == [] ==> drained == None && contents == []
      ensures old(contents) != [] ==>
                && contents == Consume(old(contents), n)
                && drained == if n == |old(contents)[0].buf| then old(contents)[0].head else None
    {
      hide IsPow2, Flatten, Filled, Counted, Chained;
      drained := None;
      var found := PeekSlot();
      if found {
        if n == |cChunk.slots[cHead].buf| {
          drained := PopSlot();
        } else {
          ShrinkSlot(n);
        }
      }
    }

    // ---------- closing ----------

    /** A list of chunks still to be given back, linked from `cur` on. */
    ghost predicate Remaining(cur: Chunk?, rest: seq<Chunk>, base: nat)
      reads this, Repr
    {
      && (rest == [] ==> cur == null) && (rest != [] ==> cur == rest[0])
      && (forall i :: 0 <= i < |rest| ==> Owns(rest[i]) && rest[i].place == Linked(base + i))
      && (forall i :: 0 <= i < |rest| - 1 ==> rest[i].next == rest[i + 1])
      && (rest != [] ==> rest[|rest| - 1].next == null)
    }

    /** The small ones of a list of chunks. */
    ghost function Smalls(cs: seq<Chunk>): seq<Chunk> {
      if cs == [] then [] else (if cs[0].cap == MinChunkCap then [cs[0]] else []) + Smalls(cs[1..])
    }

    method RecycleFirst(cur: Chunk, ghost rest: seq<Chunk>, ghost base: nat) returns (next: Chunk?)
      requires SparesPlaced() && rest != [] && Remaining(cur, rest, base)
      modifies this`pool, cur, cur.slots
      ensures SparesPlaced() && Remaining(next, rest[1..], base + 1)
      ensures pool == old(pool) + if cur.cap == MinChunkCap then [cur] else []
    {
      next := cur.next;
      cur.place := InHand;
      RecycleChunk(cur);
      assert forall i :: 0 < i < |rest| ==> rest[i] != cur && rest[i].slots != cur.slots;
    }

    /** Give back every chunk of the list that starts at `first`. */
    method RecycleList(first: Chunk?, ghost chunks: seq<Chunk>, ghost from: nat)
      requires SparesPlaced() && Sized() && Remaining(first, chunks, from)
      modifies Repr
      ensures SparesPlaced() && Sized() && pool == old(pool) + Smalls(chunks)
      ensures unchanged(`cChunk, `pChunk, `freeChunk, `live, `contents, `unlinked, `owner, `Repr, `pushed, `popped,
        `leftover)
    {
      hide IsPow2, Smalls;
      var cur := first;
      ghost var rest, base := chunks, from;
      while cur != null
        invariant SparesPlaced() && Remaining(cur, rest, base)
        invariant unchanged(`cChunk, `pChunk, `freeChunk, `live, `contents, `unlinked, `owner, `Repr, `pushed, `popped,
          `leftover)
        invariant pool + Smalls(rest) == old(pool) + Smalls(chunks)
        decreases |rest|
      {
        SmallsFirst(rest, pool);
        cur := RecycleFirst(cur, rest, base);
        rest, base := rest[1..], base + 1;
      }
      SmallsNone(pool);
    }

    lemma SmallsFirst(rest: seq<Chunk>, ps: seq<Chunk>)
      requires rest != []
      ensures ps + Smalls(rest) == ps + (if rest[0].cap == MinChunkCap then [rest[0]] else []) + Smalls(rest[1..])
    {
    }

    lemma SmallsNone(ps: seq<Chunk>)
      ensures ps + Smalls([]) == ps
    {
    }

    /** Give back the free chunk. */
    method DropFree()
      requires Valid()
      modifies this`freeChunk, this`pool, freeChunk, if freeChunk == null then {} else {freeChunk.slots}
      ensures Valid() && freeChunk == null && live == old(live)
      ensures pool == old(pool) + if old(freeChunk) != null then Smalls([old(freeChunk)]) else []
    {
      hide IsPow2, Flatten, Filled, Counted;
      if freeChunk != null {
        var f := TakeFree();
        RecycleChunk(f);
        LiveUntouched();
      }
    }

    lemma Footprint()
      requires Valid()
      ensures this in Repr && (freeChunk != null ==> freeChunk in Repr && freeChunk.slots in Repr)
    {
      hide Chained, Filled, Counted, Sized;
    }

    lemma AllRemain()
      requires Valid()
      ensures Remaining(cChunk, live, unlinked)
    {
      hide IsPow2, Sized, SparesPlaced, Filled, Counted;
    }

    method Detach() returns (first: Chunk?)
      requires Valid()
      modifies this`cChunk, this`pChunk, this`live, this`contents, this`leftover
      ensures SparesPlaced() && Sized() && Remaining(first, old(live), unlinked)
      ensures cChunk == null && pChunk == null && live == [] && contents == []
      ensures leftover == (if old(Open()) then |old(contents)| else old(leftover)) && popped + leftover == pushed
    {
      hide IsPow2, Chained, Filled, Flatten;
      AllRemain();
      if pChunk != null {
        leftover := |contents|;
      }
      first := cChunk;
      cChunk, pChunk := null, null;
      live, contents := [], [];
    }

    /** Empty the ring for good: the free chunk and every chunk of the list go back, the small ones to the pool. */
    method Close()
      requires Valid()
      modifies Repr
      ensures Valid() && !Open() && contents == [] && Repr == old(Repr) && freeChunk == null
      ensures leftover == if old(Open()) then |old(contents)| else old(leftover)
      ensures pool == old(pool) + (if old(freeChunk) != null then Smalls([old(freeChunk)]) else []) + Smalls(old(live))
    {
      hide IsPow2, Flatten, Smalls, SparesPlaced, Sized, Remaining, Chained, Filled, Counted;
      Footprint();
      DropFree();
      ghost var chunks := live;
      var cur := Detach();
      RecycleList(cur, chunks, unlinked);
    }
  }

  lemma FlattenCons(part: seq<Buffer>, rest: seq<seq<Buffer>>)
    ensures Flatten([part] + rest) == part + Flatten(rest)
    ensures rest == [] ==> Flatten([part]) == part
  {
    assert ([part] + rest)[1..] == rest;
    assert rest == [] ==> [part] + rest == [part];
  }

  lemma MaxChunkIsPow2()
    ensures IsPow2(MaxChunkCap)
  {
    assert IsPow2(16) by { assert IsPow2(2); assert IsPow2(8); }
    assert IsPow2(256) by { assert IsPow2(32); assert IsPow2(64); assert IsPow2(128); }
    assert IsPow2(4096) by { assert IsPow2(512); assert IsPow2(1024); assert IsPow2(2048); }
    assert IsPow2(65536) by { assert IsPow2(8192); assert IsPow2(16384); assert IsPow2(32768); }
  }

  /** The smallest power of two that is at least `capacity` and MinChunkCap. */
  method RoundUp(capacity: int) returns (cap: nat)
    ensures IsPow2(cap) && cap >= capacity && cap >= MinChunkCap
    ensures cap == MinChunkCap || cap < 2 * capacity
  {
    cap := 1;
    if capacity <= MinChunkCap {
      assert IsPow2(16) by { assert IsPow2(2); assert IsPow2(8); }
      return MinChunkCap;
    }
    while cap < capacity
      invariant IsPow2(cap) && cap < 2 * capacity
      decreases capacity - cap
    {
      cap := cap * 2;
    }
  }

  /** The first chunk's capacity and the bound that all later ones keep. */
  method InitialCap(initialCapacity: int) returns (cap: nat, max: nat)
    ensures IsPow2(cap) && IsPow2(max) && MinChunkCap <= cap <= max && MaxChunkCap <= max
    ensures initialCapacity <= MaxChunkCap ==> max == MaxChunkCap
  {
    cap := RoundUp(initialCapacity);
    MaxChunkIsPow2();
    if cap > MaxChunkCap && initialCapacity <= MaxChunkCap {
      Pow2Gap(MaxChunkCap, cap);
    }
    max := if cap < MaxChunkCap then MaxChunkCap else cap;
  }
}
