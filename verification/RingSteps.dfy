/**
 The receive ring under concurrency: one producer and one consumer, interleaved
 at every atomic operation of ringbuffer.go (swap of the free chunk, link of the
 next chunk, slot write, publication of the tail; loads of tail and next, swap of
 the free chunk, slot read). Chunks live in a heap and are reused through the
 free slot and a pool shared by both sides.
 */
module RingSteps {
  import opened Bytes
  import opened RingQueue

  type Id = nat

  /** Who may touch a chunk: it is the n-th chunk ever linked, in the free slot, in
      the pool, held by one side, or dropped. Bookkeeping, like `first`, the number
      of the buffer that slot 0 holds; the program does not read either. */
  datatype Place = Linked(n: int) | Free | Pooled | Producers | Consumers | Dropped

  datatype Chunk = Chunk(slots: seq<Option<Buffer>>, tail: nat, next: Option<Id>, first: nat, place: Place)

  datatype ProducerPc =
    | PIdle
    | PSwapped(v: Buffer, small: bool, got: Option<Id>)  // free slot emptied into `got`
    | PReady(v: Buffer, next: Id)                        // a rewound chunk in hand
    | PStore(v: Buffer)                                  // about to write the slot at tail
    | PWritten(v: Buffer)                                // slot written, not yet published

  datatype ConsumerPc =
    | CIdle
    | CBehind                                            // tail reloaded, still nothing to read
    | CNext(next: Id)                                    // next chunk loaded
    | CSwapped(next: Id, prev: Option<Id>)               // old chunk given away, `prev` in hand

  datatype Ring = Ring(heap: map<Id, Chunk>, free: Option<Id>, pool: set<Id>,
                       pChunk: Id, pp: ProducerPc,
                       cChunk: Id, cHead: nat, cachedTail: nat, cp: ConsumerPc,
                       pushed: seq<Buffer>, popped: seq<Buffer>,
                       live: seq<Id>, unlinked: nat)

  datatype Step =
    | PushStart(v: Buffer) | PushGrow(v: Buffer, small: bool)
    | RecycleTaken | ResetTaken | Allocate(id: Id, cap: nat) | LinkNext | WriteSlot | Publish
    | LoadTail | GiveUp | LoadNext | SwapFree | RecyclePrev | MoveOn | PopSlot

  const MaxRecycleSlots := 1024

  function Blank(cap: nat): seq<Option<Buffer>> {
    seq(cap, _ => None)
  }

  function Rewound(c: Chunk, place: Place): Chunk {
    c.(slots := Blank(|c.slots|), tail := 0, next := None, place := place)
  }

  function Initial(cap: nat): Ring {
    Ring(map[0 := Chunk(Blank(cap), 0, None, 0, Linked(0))], None, {}, 0, PIdle, 0, 0, 0, CIdle, [], [], [0], 0)
  }

  predicate Enabled(r: Ring, st: Step) {
    match st
    case PushStart(v) => r.pp.PIdle? && r.pChunk in r.heap && r.heap[r.pChunk].tail < |r.heap[r.pChunk].slots|
    case PushGrow(v, small) => r.pp.PIdle? && r.pChunk in r.heap && r.heap[r.pChunk].tail >= |r.heap[r.pChunk].slots|
    case RecycleTaken => r.pp.PSwapped? && r.pp.small && r.pp.got.Some? && r.pp.got.value in r.heap
    case ResetTaken => r.pp.PSwapped? && !r.pp.small && r.pp.got.Some? && r.pp.got.value in r.heap
    case Allocate(id, cap) => r.pp.PSwapped? && r.pp.got.None? && cap > 0 &&
      (if id in r.pool then id in r.heap else id !in r.heap)
    case LinkNext => r.pp.PReady? && r.pChunk in r.heap && r.pp.next in r.heap
    case WriteSlot => r.pp.PStore? && r.pChunk in r.heap && r.heap[r.pChunk].tail < |r.heap[r.pChunk].slots|
    case Publish => r.pp.PWritten? && r.pChunk in r.heap
    case LoadTail => r.cp.CIdle? && r.cHead >= r.cachedTail && r.cChunk in r.heap
    case GiveUp => r.cp.CBehind? && r.cChunk in r.heap && r.cHead < |r.heap[r.cChunk].slots|
    case LoadNext => r.cp.CBehind? && r.cChunk in r.heap && r.cHead >= |r.heap[r.cChunk].slots|
    case SwapFree => r.cp.CNext? && r.cChunk in r.heap && r.live != []
    case RecyclePrev => r.cp.CSwapped? && r.cp.prev.Some? && r.cp.prev.value in r.heap
    case MoveOn => r.cp.CSwapped? && r.cp.prev.None?
    case PopSlot => r.cp.CIdle? && r.cHead < r.cachedTail && r.cChunk in r.heap && r.cHead < |r.heap[r.cChunk].slots|
                    && r.heap[r.cChunk].slots[r.cHead].Some?
  }

  function Set(r: Ring, id: Id, c: Chunk): Ring {
    r.(heap := r.heap[id := c])
  }

  function Apply(r: Ring, st: Step): Ring
    requires Enabled(r, st)
  {
    match st
    case PushStart(v) => r.(pp := PStore(v))
    case PushGrow(v, small) =>
      var r1 := if r.free.Some? && r.free.value in r.heap
                then Set(r, r.free.value, r.heap[r.free.value].(place := Producers)) else r;
      r1.(free := None, pp := PSwapped(v, small, r.free))
    case RecycleTaken =>
      var c := r.heap[r.pp.got.value];
      if |c.slots| == 16 then
        Set(r, r.pp.got.value, Rewound(c, Pooled)).(pool := r.pool + {r.pp.got.value}, pp := r.pp.(got := None))
      else Set(r, r.pp.got.value, c.(place := Dropped)).(pp := r.pp.(got := None))
    case ResetTaken =>
      Set(r, r.pp.got.value, Rewound(r.heap[r.pp.got.value], Producers)).(pp := PReady(r.pp.v, r.pp.got.value))
    case Allocate(id, cap) =>
      var c := if id in r.heap then Rewound(r.heap[id], Producers) else Chunk(Blank(cap), 0, None, 0, Producers);
      Set(r, id, c).(pool := r.pool - {id}, pp := PReady(r.pp.v, id))
    case LinkNext =>
      var n := r.pp.next;
      var r1 := Set(r, r.pChunk, r.heap[r.pChunk].(next := Some(n)));
      Set(r1, n, r.heap[n].(first := |r.pushed|, place := Linked(r.unlinked + |r.live|)))
      .(pChunk := n, live := r.live + [n], pp := PStore(r.pp.v))
    case WriteSlot =>
      var c := r.heap[r.pChunk];
      Set(r, r.pChunk, c.(slots := c.slots[c.tail := Some(r.pp.v)])).(pp := PWritten(r.pp.v))
    case Publish =>
      var c := r.heap[r.pChunk];
      Set(r, r.pChunk, c.(tail := c.tail + 1)).(pushed := r.pushed + [r.pp.v], pp := PIdle)
    case LoadTail =>
      var t := r.heap[r.cChunk].tail;
      r.(cachedTail := t, cp := if r.cHead >= t then CBehind else CIdle)
    case GiveUp => r.(cp := CIdle)
    case LoadNext =>
      var n := r.heap[r.cChunk].next;
      r.(cp := if n.Some? then CNext(n.value) else CIdle)
    case SwapFree =>
      var mine := r.heap[r.cChunk];
      var given := |mine.slots| <= MaxRecycleSlots;
      var prev := if given then r.free else None;
      var r1 := Set(r, r.cChunk, mine.(place := if given then Free else Dropped));
      var r2 := if prev.Some? && prev.value in r1.heap
                then Set(r1, prev.value, r1.heap[prev.value].(place := Consumers)) else r1;
      r2.(free := if given then Some(r.cChunk) else r.free,
      live := r.live[1..], unlinked := r.unlinked + 1, cp := CSwapped(r.cp.next, prev))
    case RecyclePrev =>
      var c := r.heap[r.cp.prev.value];
      if |c.slots| == 16 then
        Set(r, r.cp.prev.value, Rewound(c, Pooled)).(pool := r.pool + {r.cp.prev.value}, cp := r.cp.(prev := None))
      else Set(r, r.cp.prev.value, c.(place := Dropped)).(cp := r.cp.(prev := None))
    case MoveOn => r.(cChunk := r.cp.next, cHead := 0, cachedTail := 0, cp := CIdle)
    case PopSlot =>
      var c := r.heap[r.cChunk];
      Set(r, r.cChunk, c.(slots := c.slots[r.cHead := None]))
      .(cHead := r.cHead + 1, popped := r.popped + [c.slots[r.cHead].value])
  }

  function Exec(r: Ring, steps: seq<Step>): Option<Ring> {
    if steps == [] then Some(r)
    else
      var before := Exec(r, steps[..|steps| - 1]);
      var st := steps[|steps| - 1];
      if before.Some? && Enabled(before.value, st) then Some(Apply(before.value, st)) else None
  }

  // ---------- the invariant ----------

  ghost predicate At(r: Ring, id: Id, place: Place) {
    id in r.heap && r.heap[id].place == place
  }

  /** Every chunk a variable points to is in the place that variable stands for, so
      no chunk is in two places. */
  ghost predicate Placed(r: Ring) {
    && (forall i :: 0 <= i < |r.live| ==> At(r, r.live[i], Linked(r.unlinked + i)))
    && (r.free.Some? ==> At(r, r.free.value, Free))
    && (forall id <- r.pool :: At(r, id, Pooled))
    && (r.pp.PSwapped? && r.pp.got.Some? ==> At(r, r.pp.got.value, Producers))
    && (r.pp.PReady? ==> At(r, r.pp.next, Producers))
    && (r.cp.CSwapped? && r.cp.prev.Some? ==> At(r, r.cp.prev.value, Consumers))
  }

  ghost predicate Chained(r: Ring)
    requires Placed(r)
  {
    && |r.live| > 0 && r.pChunk == r.live[|r.live| - 1]
    && (forall i :: 0 <= i < |r.live| ==> r.heap[r.live[i]].tail <= |r.heap[r.live[i]].slots|)
    && r.heap[r.pChunk].next == None
    && (forall i :: 0 <= i < |r.live| - 1 ==>
          && r.heap[r.live[i]].next == Some(r.live[i + 1])
          && r.heap[r.live[i]].tail == |r.heap[r.live[i]].slots|
          && r.heap[r.live[i + 1]].first == r.heap[r.live[i]].first + |r.heap[r.live[i]].slots|)
  }

  /** Later chunks hold later buffers. */
  ghost predicate Ordered(r: Ring)
    requires Placed(r)
  {
    forall i, j :: 0 <= i < j < |r.live| ==>
                     r.heap[r.live[i]].first + |r.heap[r.live[i]].slots| <= r.heap[r.live[j]].first
  }

  /** The consumer reads from the first live chunk: its own, or the one it is about to move to. */
  ghost predicate ConsumerOk(r: Ring)
    requires Placed(r) && Chained(r)
  {
    var c := r.heap[r.live[0]];
    if r.cp.CSwapped? then r.cp.next == r.live[0] && c.first == |r.popped|
    else
      && r.cChunk == r.live[0] && r.cHead <= r.cachedTail <= c.tail && c.first + r.cHead == |r.popped|
      && (r.cp.CBehind? ==> r.cHead == r.cachedTail)
      && (r.cp.CNext? ==> |r.live| > 1 && r.cp.next == r.live[1] && r.cHead == |c.slots|)
  }

  ghost predicate ProducerOk(r: Ring)
    requires Placed(r) && Chained(r)
  {
    var c := r.heap[r.pChunk];
    && c.first + c.tail == |r.pushed|
    && (r.pp.PStore? ==> c.tail < |c.slots|)
    && (r.pp.PSwapped? || r.pp.PReady? ==> c.tail == |c.slots|)
    && (r.pp.PReady? ==> var n := r.heap[r.pp.next]; n.tail == 0 && n.next == None && |n.slots| > 0)
    && (r.pp.PWritten? ==> c.tail < |c.slots| && c.slots[c.tail] == Some(r.pp.v))
  }

  /** Every published and unpopped slot holds its buffer. */
  ghost predicate Filled(r: Ring)
    requires Placed(r) && Chained(r)
  {
    && r.popped <= r.pushed
    && (forall i, k :: 0 <= i < |r.live| && 0 <= k < r.heap[r.live[i]].tail
                       && |r.popped| <= r.heap[r.live[i]].first + k < |r.pushed| ==>
                         r.heap[r.live[i]].slots[k] == Some(r.pushed[r.heap[r.live[i]].first + k]))
  }

  ghost predicate Sized(r: Ring) {
    forall id <- r.heap :: |r.heap[id].slots| > 0
  }

  ghost predicate Inv(r: Ring) {
    Placed(r) && Sized(r) && Chained(r) && Ordered(r) && ConsumerOk(r) && ProducerOk(r) && Filled(r)
  }

  lemma InitialInv(cap: nat)
    requires cap > 0
    ensures Inv(Initial(cap))
  {
  }

  /** The live chunks and the histories are the same in both states. */
  ghost predicate SameQueue(r: Ring, s: Ring) {
    && s.live == r.live && s.unlinked == r.unlinked && s.pChunk == r.pChunk
    && s.pushed == r.pushed && s.popped == r.popped
    && (forall i :: 0 <= i < |r.live| ==>
          r.live[i] in r.heap && r.live[i] in s.heap && s.heap[r.live[i]] == r.heap[r.live[i]])
  }

  lemma SameQueueKeeps(r: Ring, s: Ring)
    requires Inv(r) && SameQueue(r, s) && Placed(s)
    ensures Chained(s) && Ordered(s) && Filled(s)
  {
    hide Sized, ConsumerOk, ProducerOk;
  }

  /** The live chunks differ at most in what their slots hold. */
  ghost predicate SameShape(r: Ring, s: Ring) {
    && s.live == r.live && s.pChunk == r.pChunk
    && (forall i :: 0 <= i < |r.live| ==>
          && r.live[i] in r.heap && r.live[i] in s.heap
          && var c, d := r.heap[r.live[i]], s.heap[r.live[i]];
          && d == c.(slots := d.slots) && |d.slots| == |c.slots|)
  }

  lemma SameShapeKeeps(r: Ring, s: Ring)
    requires Placed(r) && Chained(r) && Ordered(r) && Placed(s) && SameShape(r, s)
    ensures Chained(s) && Ordered(s)
  {
    hide At;
  }

  /** Steps that leave the queue alone. */
  predicate Aside(st: Step) {
    st.PushStart? || st.PushGrow? || st.RecycleTaken? || st.ResetTaken? || st.Allocate?
    || st.LoadTail? || st.GiveUp? || st.LoadNext? || st.RecyclePrev? || st.MoveOn?
  }

  lemma GrowPlaced(r: Ring, st: Step)
    requires Placed(r) && Sized(r) && Enabled(r, st)
    requires st.PushGrow?
    ensures SameQueue(r, Apply(r, st)) && Placed(Apply(r, st)) && Sized(Apply(r, st))
  {
  }

  lemma ResetPlaced(r: Ring, st: Step)
    requires Placed(r) && Sized(r) && Enabled(r, st)
    requires st.ResetTaken?
    ensures SameQueue(r, Apply(r, st)) && Placed(Apply(r, st)) && Sized(Apply(r, st))
  {
  }

  lemma RetirePlaced(r: Ring, st: Step)
    requires Placed(r) && Sized(r) && Enabled(r, st)
    requires st.RecycleTaken?
    ensures SameQueue(r, Apply(r, st)) && Placed(Apply(r, st)) && Sized(Apply(r, st))
  {
  }

  lemma AllocatePlaced(r: Ring, st: Step)
    requires Placed(r) && Sized(r) && Enabled(r, st)
    requires st.Allocate?
    ensures SameQueue(r, Apply(r, st)) && Placed(Apply(r, st)) && Sized(Apply(r, st))
  {
  }

  lemma RecyclePlaced(r: Ring, st: Step)
    requires Placed(r) && Sized(r) && Enabled(r, st)
    requires st.RecyclePrev?
    ensures SameQueue(r, Apply(r, st)) && Placed(Apply(r, st)) && Sized(Apply(r, st))
  {
  }

  lemma LoadPlaced(r: Ring, st: Step)
    requires Placed(r) && Sized(r) && Enabled(r, st)
    requires st.PushStart? || st.LoadTail? || st.GiveUp? || st.LoadNext? || st.MoveOn?
    ensures SameQueue(r, Apply(r, st)) && Placed(Apply(r, st)) && Sized(Apply(r, st))
  {
  }

  lemma AsidePlaced(r: Ring, st: Step)
    requires Placed(r) && Sized(r) && Enabled(r, st) && Aside(st)
    ensures SameQueue(r, Apply(r, st)) && Placed(Apply(r, st)) && Sized(Apply(r, st))
  {
    hide Placed, Sized, SameQueue;
    match st
    case PushGrow(_, _) => GrowPlaced(r, st);
    case RecycleTaken => RetirePlaced(r, st);
    case ResetTaken => ResetPlaced(r, st);
    case Allocate(_, _) => AllocatePlaced(r, st);
    case RecyclePrev => RecyclePlaced(r, st);
    case _ => LoadPlaced(r, st);
  }

  lemma AsideKeeps(r: Ring, st: Step)
    requires Inv(r) && Enabled(r, st) && Aside(st)
    ensures Inv(Apply(r, st))
  {
    hide Filled, Sized, Chained, Ordered;
    AsidePlaced(r, st);
    SameQueueKeeps(r, Apply(r, st));
    AsideConsumer(r, st);
    AsideProducer(r, st);
  }

  lemma AsideConsumer(r: Ring, st: Step)
    requires Inv(r) && Enabled(r, st) && Aside(st)
    requires SameQueue(r, Apply(r, st)) && Placed(Apply(r, st)) && Chained(Apply(r, st))
    ensures ConsumerOk(Apply(r, st))
  {
    hide Filled, Sized, Ordered, ProducerOk;
  }

  lemma AsideProducer(r: Ring, st: Step)
    requires Inv(r) && Enabled(r, st) && Aside(st)
    requires SameQueue(r, Apply(r, st)) && Placed(Apply(r, st)) && Chained(Apply(r, st)) && Sized(Apply(r, st))
    ensures ProducerOk(Apply(r, st))
  {
    hide Filled, Ordered, ConsumerOk;
  }

  lemma LinkPlaced(r: Ring)
    requires Placed(r) && Sized(r) && Chained(r) && Enabled(r, LinkNext)
    ensures Placed(Apply(r, LinkNext)) && Sized(Apply(r, LinkNext))
  {
  }

  lemma LinkKeeps(r: Ring)
    requires Inv(r) && Enabled(r, LinkNext)
    ensures Inv(Apply(r, LinkNext))
  {
    hide Placed, Sized, Chained, Ordered, ConsumerOk, ProducerOk, Filled;
    LinkPlaced(r);
    LinkChained(r);
    LinkOrdered(r);
    LinkEnds(r);
    LinkFilled(r);
  }

  lemma LinkChained(r: Ring)
    requires Placed(r) && Chained(r) && ProducerOk(r) && Enabled(r, LinkNext) && Placed(Apply(r, LinkNext))
    ensures Chained(Apply(r, LinkNext))
  {
    hide At;
    LinkHeap(r);
  }

  /** What linking changes: the last chunk's link and the new chunk's numbers. */
  lemma LinkHeap(r: Ring)
    requires Placed(r) && Chained(r) && Enabled(r, LinkNext) && Placed(Apply(r, LinkNext))
    ensures var s := Apply(r, LinkNext);
            var last := |r.live| - 1;
            && s.live == r.live + [r.pp.next] && s.pChunk == r.pp.next
            && (forall i :: 0 <= i < last ==> s.heap[r.live[i]] == r.heap[r.live[i]])
            && s.heap[r.live[last]] == r.heap[r.live[last]].(next := Some(r.pp.next))
            && s.heap[r.pp.next].first == |r.pushed|
            && s.heap[r.pp.next].(first := 0, place := Dropped) == r.heap[r.pp.next].(first := 0, place := Dropped)
  {
  }

  lemma LinkOrdered(r: Ring)
    requires Inv(r) && Enabled(r, LinkNext) && Placed(Apply(r, LinkNext))
    ensures Ordered(Apply(r, LinkNext))
  {
    hide Sized, Filled, ConsumerOk;
    var s := Apply(r, LinkNext);
    var last := |r.live| - 1;
    forall i | 0 <= i <= last ensures r.heap[r.live[i]].first + |r.heap[r.live[i]].slots| <= |r.pushed| {
      if i < last {
        assert r.heap[r.live[i]].first + |r.heap[r.live[i]].slots| <= r.heap[r.live[last]].first;
      }
    }
  }

  lemma LinkEnds(r: Ring)
    requires Inv(r) && Enabled(r, LinkNext) && Placed(Apply(r, LinkNext)) && Chained(Apply(r, LinkNext))
    ensures ProducerOk(Apply(r, LinkNext)) && ConsumerOk(Apply(r, LinkNext))
  {
    hide Sized, Filled, Ordered;
  }

  lemma LinkFilled(r: Ring)
    requires Inv(r) && Enabled(r, LinkNext) && Placed(Apply(r, LinkNext)) && Chained(Apply(r, LinkNext))
    ensures Filled(Apply(r, LinkNext))
  {
    hide Sized, Ordered, ConsumerOk;
  }

  lemma TailPlaced(r: Ring, st: Step)
    requires Placed(r) && Sized(r) && Chained(r) && Enabled(r, st) && (st.WriteSlot? || st.Publish?)
    ensures Placed(Apply(r, st)) && Sized(Apply(r, st))
  {
  }

  lemma WriteKeeps(r: Ring)
    requires Inv(r) && Enabled(r, WriteSlot)
    ensures Inv(Apply(r, WriteSlot))
  {
    hide Placed, Sized, Chained, Ordered, ConsumerOk, ProducerOk, Filled;
    TailPlaced(r, WriteSlot);
    WriteChained(r);
    WriteEnds(r);
    WriteFilled(r);
  }

  lemma WriteChained(r: Ring)
    requires Inv(r) && Enabled(r, WriteSlot) && Placed(Apply(r, WriteSlot))
    ensures Chained(Apply(r, WriteSlot)) && Ordered(Apply(r, WriteSlot))
  {
    hide Sized, Filled, Ordered;
    SameShapeKeeps(r, Apply(r, WriteSlot));
  }

  lemma WriteEnds(r: Ring)
    requires Inv(r) && Enabled(r, WriteSlot) && Placed(Apply(r, WriteSlot)) && Chained(Apply(r, WriteSlot))
    ensures ProducerOk(Apply(r, WriteSlot)) && ConsumerOk(Apply(r, WriteSlot))
  {
    hide Sized, Filled, Ordered;
  }

  /** The producer writes only the slot at the tail, which nothing published occupies. */
  lemma WriteFilled(r: Ring)
    requires Inv(r) && Enabled(r, WriteSlot) && Placed(Apply(r, WriteSlot)) && Chained(Apply(r, WriteSlot))
    ensures Filled(Apply(r, WriteSlot))
  {
    hide Sized, Ordered, ConsumerOk;
  }

  lemma PublishKeeps(r: Ring)
    requires Inv(r) && Enabled(r, Publish)
    ensures Inv(Apply(r, Publish))
  {
    hide Placed, Sized, Chained, Ordered, ConsumerOk, ProducerOk, Filled;
    TailPlaced(r, Publish);
    PublishChained(r);
    PublishFilled(r);
  }

  lemma PublishChained(r: Ring)
    requires Inv(r) && Enabled(r, Publish) && Placed(Apply(r, Publish))
    ensures var s := Apply(r, Publish); Chained(s) && Ordered(s) && ProducerOk(s) && ConsumerOk(s)
  {
    hide Sized, Filled;
  }

  lemma PublishFilled(r: Ring)
    requires Inv(r) && Enabled(r, Publish) && Placed(Apply(r, Publish)) && Chained(Apply(r, Publish))
    ensures Filled(Apply(r, Publish))
  {
    hide Sized, ConsumerOk;
    var s := Apply(r, Publish);
    var last := |r.live| - 1;
    forall i, k | 0 <= i < |s.live| && 0 <= k < s.heap[s.live[i]].tail
                  && |s.popped| <= s.heap[s.live[i]].first + k < |s.pushed|
      ensures s.heap[s.live[i]].slots[k] == Some(s.pushed[s.heap[s.live[i]].first + k])
    {
      if i < last {
        assert r.heap[r.live[i]].first + |r.heap[r.live[i]].slots| <= r.heap[r.live[last]].first;
        assert r.heap[r.live[i]].slots[k] == Some(r.pushed[r.heap[r.live[i]].first + k]);
      } else if k < r.heap[r.live[last]].tail {
        assert r.heap[r.live[i]].slots[k] == Some(r.pushed[r.heap[r.live[i]].first + k]);
      }
    }
  }

  lemma SwapPlaced(r: Ring)
    requires Placed(r) && Chained(r) && ConsumerOk(r) && Enabled(r, SwapFree)
    ensures Placed(Apply(r, SwapFree))
  {
  }

  lemma SwapSized(r: Ring)
    requires Sized(r) && Enabled(r, SwapFree)
    ensures Sized(Apply(r, SwapFree))
  {
  }

  /** Giving the first chunk away leaves the others, and what the producer holds, alone. */
  lemma SwapOthers(r: Ring)
    requires Placed(r) && Chained(r) && ConsumerOk(r) && Enabled(r, SwapFree)
    ensures var s := Apply(r, SwapFree);
            && (forall i :: 0 < i < |r.live| ==> r.live[i] in s.heap && s.heap[r.live[i]] == r.heap[r.live[i]])
            && (s.pp.PReady? ==> s.pp.next in s.heap && s.heap[s.pp.next] == r.heap[r.pp.next])
  {
  }

  lemma SwapKeeps(r: Ring)
    requires Inv(r) && Enabled(r, SwapFree)
    ensures Inv(Apply(r, SwapFree))
  {
    hide Placed, Sized, Chained, Ordered, ConsumerOk, ProducerOk, Filled;
    SwapPlaced(r);
    SwapSized(r);
    SwapOthers(r);
    SwapRest(r, Apply(r, SwapFree));
    SwapFilled(r, Apply(r, SwapFree));
  }

  /** The queue without its drained first chunk. */
  lemma SwapRest(r: Ring, s: Ring)
    requires Inv(r) && r.cp.CNext? && Placed(s)
    requires s.live == r.live[1..] && s.pushed == r.pushed && s.popped == r.popped && s.pChunk == r.pChunk &&
      s.pp == r.pp
    requires s.cp.CSwapped? && s.cp.next == r.cp.next
    requires forall i :: 0 < i < |r.live| ==> r.live[i] in s.heap && s.heap[r.live[i]] == r.heap[r.live[i]]
    requires s.pp.PReady? ==> s.pp.next in s.heap && s.heap[s.pp.next] == r.heap[r.pp.next]
    ensures Chained(s) && Ordered(s) && ConsumerOk(s) && ProducerOk(s)
  {
    hide Sized, Filled;
    assert forall i :: 0 <= i < |s.live| ==> s.live[i] == r.live[i + 1];
  }

  lemma SwapFilled(r: Ring, s: Ring)
    requires Placed(r) && Chained(r) && Filled(r) && Placed(s) && Chained(s)
    requires s.live == r.live[1..] && s.pushed == r.pushed && s.popped == r.popped
    requires forall i :: 0 < i < |r.live| ==> r.live[i] in s.heap && s.heap[r.live[i]] == r.heap[r.live[i]]
    ensures Filled(s)
  {
    hide At;
    assert forall i :: 0 <= i < |s.live| ==> s.live[i] == r.live[i + 1];
  }

  lemma PopPlaced(r: Ring)
    requires Placed(r) && Sized(r) && Chained(r) && ConsumerOk(r) && Enabled(r, PopSlot)
    ensures Placed(Apply(r, PopSlot)) && Sized(Apply(r, PopSlot))
  {
  }

  lemma PopKeeps(r: Ring)
    requires Inv(r) && Enabled(r, PopSlot)
    ensures Inv(Apply(r, PopSlot))
  {
    hide Placed, Sized, Chained, Ordered, ConsumerOk, ProducerOk, Filled;
    PopPlaced(r);
    PopChained(r);
    PopEnds(r);
    PopFilled(r);
  }

  lemma PopChained(r: Ring)
    requires Placed(r) && Chained(r) && Ordered(r) && ConsumerOk(r) && Enabled(r, PopSlot) && Placed(Apply(r, PopSlot))
    ensures Chained(Apply(r, PopSlot)) && Ordered(Apply(r, PopSlot))
  {
    hide Chained, Ordered;
    SameShapeKeeps(r, Apply(r, PopSlot));
  }

  lemma PopEnds(r: Ring)
    requires Inv(r) && Enabled(r, PopSlot) && Placed(Apply(r, PopSlot)) && Chained(Apply(r, PopSlot))
    ensures ProducerOk(Apply(r, PopSlot)) && ConsumerOk(Apply(r, PopSlot))
  {
    hide Sized, Filled, Ordered;
  }

  lemma PopFilled(r: Ring)
    requires Inv(r) && Enabled(r, PopSlot) && Placed(Apply(r, PopSlot)) && Chained(Apply(r, PopSlot))
    ensures Filled(Apply(r, PopSlot))
  {
    hide Sized;
    FrontIsNext(r);
  }

  /** The slot the consumer reads holds the buffer it has to return next. */
  lemma FrontIsNext(r: Ring)
    requires Inv(r) && !r.cp.CSwapped? && r.cHead < r.cachedTail
    ensures |r.popped| < |r.pushed|
    ensures r.heap[r.cChunk].slots[r.cHead] == Some(r.pushed[|r.popped|])
  {
    var last := |r.live| - 1;
    if last > 0 {
      assert r.heap[r.live[0]].first + |r.heap[r.live[0]].slots| <= r.heap[r.live[last]].first;
    }
    assert r.live[0] == r.cChunk;
  }

  lemma StepKeeps(r: Ring, st: Step)
    requires Inv(r) && Enabled(r, st)
    ensures Inv(Apply(r, st))
  {
    hide Inv;
    match st
    case LinkNext => LinkKeeps(r);
    case WriteSlot => WriteKeeps(r);
    case Publish => PublishKeeps(r);
    case SwapFree => SwapKeeps(r);
    case PopSlot => PopKeeps(r);
    case _ => AsideKeeps(r, st);
  }

  lemma {:induction false} RunKeeps(cap: nat, steps: seq<Step>)
    requires cap > 0 && Exec(Initial(cap), steps).Some?
    ensures Inv(Exec(Initial(cap), steps).value)
    decreases |steps|
  {
    hide Inv;
    if steps == [] {
      InitialInv(cap);
    } else {
      var before := Exec(Initial(cap), steps[..|steps| - 1]).value;
      RunKeeps(cap, steps[..|steps| - 1]);
      StepKeeps(before, steps[|steps| - 1]);
    }
  }

  // ---------- what every interleaving guarantees ----------

  /** FIFO: whatever the interleaving, what has been popped is a prefix of what has been pushed. */
  lemma PoppedIsPrefix(cap: nat, steps: seq<Step>)
    requires cap > 0 && Exec(Initial(cap), steps).Some?
    ensures var r := Exec(Initial(cap), steps).value; r.popped <= r.pushed
  {
    RunKeeps(cap, steps);
  }

  /** The chunks the consumer may still read: from its own one on, or from the one it is moving to. */
  ghost predicate ConsumerReaches(r: Ring, id: Id) {
    id in r.live || (!r.cp.CSwapped? && id == r.cChunk)
  }

  predicate ProducerStep(st: Step) {
    st.PushGrow? || st.RecycleTaken? || st.ResetTaken? || st.Allocate? || st.LinkNext? || st.WriteSlot?
  }

  /** The published slots and the tail of a chunk are as they were, and so is all of it unless it is the last. */
  predicate Spared(r: Ring, s: Ring, id: Id) {
    && id in r.heap && id in s.heap
    && var c, d := r.heap[id], s.heap[id];
    && c.tail == d.tail <= |c.slots| == |d.slots| && d.slots[..c.tail] == c.slots[..c.tail]
    && (id != r.pChunk ==> d == c)
  }

  lemma ProducerSpares(r: Ring, st: Step, id: Id)
    requires Inv(r) && Enabled(r, st) && ProducerStep(st) && ConsumerReaches(r, id)
    ensures Spared(r, Apply(r, st), id)
  {
    hide Sized, Filled, Ordered;
    if st.LinkNext? || st.WriteSlot? {
      LastSpared(r, st, id);
    } else {
      AsidePlaced(r, st);
    }
  }

  lemma LastSpared(r: Ring, st: Step, id: Id)
    requires Placed(r) && Chained(r) && ConsumerOk(r) && ProducerOk(r)
    requires Enabled(r, st) && (st.LinkNext? || st.WriteSlot?) && ConsumerReaches(r, id)
    ensures Spared(r, Apply(r, st), id)
  {
    var i :| 0 <= i < |r.live| && r.live[i] == id;
    assert At(r, r.live[i], Linked(r.unlinked + i));
  }

  /** No step of the producer rewinds, clears or relinks a chunk the consumer can
      still reach: the only such chunk it touches is its own last one, and there
      only the slot past the published ones and the link. */
  lemma ProducerNeverTouchesReachable(cap: nat, steps: seq<Step>, st: Step, id: Id)
    requires cap > 0 && Exec(Initial(cap), steps).Some?
    requires var r := Exec(Initial(cap), steps).value; Enabled(r, st) && ProducerStep(st) && ConsumerReaches(r, id)
    ensures var r := Exec(Initial(cap), steps).value; Spared(r, Apply(r, st), id)
  {
    hide Inv;
    RunKeeps(cap, steps);
    ProducerSpares(Exec(Initial(cap), steps).value, st, id);
  }

  /** The consumer never finds an unpublished slot: where it reads, the buffer it has
      to return next is there. */
  lemma ConsumerReadsPublished(cap: nat, steps: seq<Step>)
    requires cap > 0 && Exec(Initial(cap), steps).Some?
    ensures var r := Exec(Initial(cap), steps).value;
            r.cp.CIdle? && r.cHead < r.cachedTail ==>
              && |r.popped| < |r.pushed| && Enabled(r, PopSlot)
              && Apply(r, PopSlot).popped == r.pushed[..|r.popped| + 1]
  {
    hide Inv;
    RunKeeps(cap, steps);
    var r := Exec(Initial(cap), steps).value;
    if r.cp.CIdle? && r.cHead < r.cachedTail {
      PopIsNext(r);
    }
  }

  lemma PopIsNext(r: Ring)
    requires Inv(r) && r.cp.CIdle? && r.cHead < r.cachedTail
    ensures |r.popped| < |r.pushed| && Enabled(r, PopSlot) && Apply(r, PopSlot).popped == r.pushed[..|r.popped| + 1]
  {
    hide Sized, Ordered;
    FrontIsNext(r);
  }

  /** The producer's next step, and that it can be taken. */
  ghost predicate ProducerCanStep(r: Ring, v: Buffer, id: Id) {
    match r.pp
    case PIdle => Enabled(r, PushStart(v)) || Enabled(r, PushGrow(v, true))
    case PSwapped(_, small, got) =>
      if got.None? then id !in r.heap ==> Enabled(r, Allocate(id, 16))
      else if small then Enabled(r, RecycleTaken) else Enabled(r, ResetTaken)
    case PReady(_, _) => Enabled(r, LinkNext)
    case PStore(_) => Enabled(r, WriteSlot)
    case PWritten(_) => Enabled(r, Publish)
  }

  ghost predicate ConsumerCanStep(r: Ring) {
    match r.cp
    case CIdle => if r.cHead >= r.cachedTail then Enabled(r, LoadTail) else Enabled(r, PopSlot)
    case CBehind => Enabled(r, GiveUp) || Enabled(r, LoadNext)
    case CNext(_) => Enabled(r, SwapFree)
    case CSwapped(_, prev) => if prev.Some? then Enabled(r, RecyclePrev) else Enabled(r, MoveOn)
  }

  /** Neither side ever follows a dangling pointer, overruns a chunk or reads an
      empty slot: in every reachable state its next operation is well defined. */
  lemma NeitherSideFaults(cap: nat, steps: seq<Step>, v: Buffer, id: Id)
    requires cap > 0 && Exec(Initial(cap), steps).Some?
    ensures var r := Exec(Initial(cap), steps).value; ProducerCanStep(r, v, id) && ConsumerCanStep(r)
  {
    hide Inv;
    RunKeeps(cap, steps);
    var r := Exec(Initial(cap), steps).value;
    ProducerSteps(r, v, id);
    ConsumerSteps(r);
  }

  lemma ProducerSteps(r: Ring, v: Buffer, id: Id)
    requires Inv(r)
    ensures ProducerCanStep(r, v, id)
  {
    hide Sized, Filled, Ordered, ConsumerOk;
  }

  lemma ConsumerSteps(r: Ring)
    requires Inv(r)
    ensures ConsumerCanStep(r)
  {
    hide Sized, Ordered;
    if r.cp.CIdle? && r.cHead < r.cachedTail {
      PopIsNext(r);
    }
  }

  /** The load after which the consumer reports the ring empty: of the tail of a chunk that is not
      used up, or of the link of one that is. */
  predicate FindsEmpty(r: Ring, st: Step)
    requires Enabled(r, st)
  {
    || (st.LoadTail? && Apply(r, st).cp.CBehind? && r.cHead < |r.heap[r.cChunk].slots|)
    || (st.LoadNext? && Apply(r, st).cp.CIdle?)
  }

  /** The verdict is exact: at that very load, everything pushed has been popped. */
  lemma EmptyIsExact(cap: nat, steps: seq<Step>, st: Step)
    requires cap > 0 && Exec(Initial(cap), steps).Some? && Enabled(Exec(Initial(cap), steps).value, st)
    ensures var r := Exec(Initial(cap), steps).value; FindsEmpty(r, st) ==> r.popped == r.pushed
  {
    hide Inv;
    RunKeeps(cap, steps);
    var r := Exec(Initial(cap), steps).value;
    if FindsEmpty(r, st) {
      EmptyHere(r, st);
    }
  }

  lemma FirstLinked(r: Ring)
    requires Placed(r) && Chained(r)
    ensures |r.live| == 1 || (var c := r.heap[r.live[0]]; c.next == Some(r.live[1]) && c.tail == |c.slots|)
  {
    if |r.live| > 1 {
      assert r.heap[r.live[0]].next == Some(r.live[1]);
    }
  }

  lemma EmptyHere(r: Ring, st: Step)
    requires Inv(r) && Enabled(r, st) && FindsEmpty(r, st)
    ensures r.popped == r.pushed
  {
    hide Sized, Ordered;
    assert r.cChunk == r.live[0];
    var c := r.heap[r.live[0]];
    FirstLinked(r);
    assert r.cHead == c.tail;
    assert |r.popped| == c.first + c.tail == |r.pushed|;
  }
}
