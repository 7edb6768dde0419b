/**
 The session's tables under its one lock (session.go): the open channels, the stash of frames
 that arrived before their channel was opened, and the memory of recently closed channels.

 The clock is a parameter of every operation that reads it.
 */
module SessionTables {
  import opened Bytes

  const MaxClosedIDs := 64

  datatype EarlyFrame = EarlyFrame(flag: nat, offset: nat, length: nat)

  datatype Queue = Queue(frames: seq<EarlyFrame>, bytes: nat, expires: int)

  /** The payload bytes of a list of frames. */
  function Payload(frames: seq<EarlyFrame>): nat {
    if frames == [] then 0 else Payload(frames[..|frames| - 1]) + frames[|frames| - 1].length
  }

  /** The payload bytes of the whole stash. */
  ghost function Stashed(pending: map<nat, Queue>): nat {
    if pending == map[] then 0
    else
      var id :| id in pending;
      Payload(pending[id].frames) + Stashed(pending - {id})
  }

  /** The sum does not depend on the order the queues are counted in. */
  lemma {:induction false} StashedRemove(pending: map<nat, Queue>, id: nat)
    requires id in pending
    ensures Stashed(pending) == Payload(pending[id].frames) + Stashed(pending - {id})
    decreases |pending|
  {
    var first :| first in pending && Stashed(pending) == Payload(pending[first].frames) + Stashed(pending - {first});
    if first != id {
      StashedRemove(pending - {first}, id);
      StashedRemove(pending - {id}, first);
      assert pending - {first} - {id} == pending - {id} - {first};
    }
  }

  lemma StashedUpdate(pending: map<nat, Queue>, id: nat, q: Queue)
    ensures Stashed(pending[id := q]) == Payload(q.frames) + Stashed(pending - {id})
    ensures id !in pending ==> pending - {id} == pending
  {
    StashedRemove(pending[id := q], id);
    assert pending[id := q] - {id} == pending - {id};
  }

  /** What is left of the stash at a time. */
  function Unexpired(pending: map<nat, Queue>, now: int): (left: map<nat, Queue>)
    ensures left.Keys <= pending.Keys
  {
    map id | id in pending && now <= pending[id].expires :: pending[id]
  }

  function StillClosed(closedIDs: map<nat, int>, now: int): (left: map<nat, int>)
    ensures left.Keys <= closedIDs.Keys
  {
    map id | id in closedIDs && now <= closedIDs[id] :: closedIDs[id]
  }

  lemma {:induction false} KeysBound<T>(big: map<nat, T>, small: map<nat, T>)
    requires small.Keys <= big.Keys
    ensures |small| <= |big|
    decreases |small|
  {
    if small != map[] {
      var id :| id in small;
      assert (small - {id}).Keys <= (big - {id}).Keys;
      KeysBound(big - {id}, small - {id});
    }
  }

  datatype Verdict = Feed(ch: nat) | Held | Late | Unknown

  predicate QueuesSound(pending: map<nat, Queue>, maxFrames: nat) {
    forall id :: id in pending ==>
      pending[id].bytes == Payload(pending[id].frames) && 1 <= |pending[id].frames| <= maxFrames
  }

  /** No id is open, stashed or remembered as closed twice over. */
  predicate Disjoint(channels: map<nat, nat>, pending: map<nat, Queue>, closedIDs: map<nat, int>) {
    && (forall id :: id in channels ==> id !in pending && id !in closedIDs)
    && (forall id :: id in pending ==> id !in closedIDs)
  }

  /** Markers with room made for one more: none changes, one still in force is given up only when all
      are, and then it is one that expires no later than any other. */
  predicate Roomy(marks: map<nat, int>, after: map<nat, int>, now: int) {
    && |after| < MaxClosedIDs
    && (forall k :: k in after ==> k in marks && after[k] == marks[k])
    && (forall k :: k in marks && k !in after && now <= marks[k] ==>
          |StillClosed(marks, now)| == MaxClosedIDs && forall j :: j in after ==> marks[k] <= after[j])
    && (|marks| < MaxClosedIDs ==> after == marks)
    && (|marks| >= MaxClosedIDs && |StillClosed(marks, now)| < MaxClosedIDs ==> after == StillClosed(marks, now))
    && (|marks| >= MaxClosedIDs ==> after.Keys <= StillClosed(marks, now).Keys)
  }

  /** The markers after one was added. */
  ghost predicate Remembered(marks: map<nat, int>, after: map<nat, int>, id: nat, expires: int, now: int) {
    exists room :: Roomy(marks, room, now) && after == room[id := expires]
  }

  lemma AddMarker(room: map<nat, int>, id: nat, expires: int)
    ensures |room[id := expires]| <= |room| + 1
  {
    assert room[id := expires].Keys == room.Keys + {id};
  }

  /** With room left, the new marker joins the others and nothing else changes. */
  lemma RememberedInRoom(marks: map<nat, int>, after: map<nat, int>, id: nat, expires: int, now: int)
    requires Remembered(marks, after, id, expires, now)
    ensures id in after && after[id] == expires
    ensures |marks| < MaxClosedIDs ==> after == marks[id := expires]
    ensures forall k :: k in after && k != id ==> k in marks && after[k] == marks[k]
  {
    hide StillClosed;
  }

  lemma QueueRemoved(pending: map<nat, Queue>, id: nat, maxFrames: nat)
    requires id in pending && QueuesSound(pending, maxFrames)
    ensures QueuesSound(pending - {id}, maxFrames) && |pending - {id}| == |pending| - 1
    ensures Stashed(pending) == pending[id].bytes + Stashed(pending - {id})
  {
    StashedRemove(pending, id);
    assert pending == (pending - {id})[id := pending[id]];
  }

  // ---------- how many frames are stashed ----------

  /** The configured limits, after normalisation. */
  datatype Limits = Limits(channels: nat, frames: nat, bytes: nat)

  /** The number of stashed frames, all channels together. */
  ghost function FrameCount(pending: map<nat, Queue>): nat {
    if pending == map[] then 0
    else
      var id :| id in pending;
      |pending[id].frames| + FrameCount(pending - {id})
  }

  lemma {:induction false} CountRemove(pending: map<nat, Queue>, id: nat)
    requires id in pending
    ensures FrameCount(pending) == |pending[id].frames| + FrameCount(pending - {id})
    decreases |pending|
  {
    var first :| first in pending && FrameCount(pending) == |pending[first].frames| + FrameCount(pending - {first});
    if first != id {
      CountRemove(pending - {first}, id);
      CountRemove(pending - {id}, first);
      assert pending - {first} - {id} == pending - {id} - {first};
    }
  }

  lemma {:induction false} CountBound(pending: map<nat, Queue>, maxFrames: nat)
    requires QueuesSound(pending, maxFrames)
    ensures FrameCount(pending) <= |pending| * maxFrames
    decreases |pending|
  {
    if pending != map[] {
      var id :| id in pending;
      CountRemove(pending, id);
      QueueRemoved(pending, id, maxFrames);
      assert |pending[id].frames| <= maxFrames;
      hide FrameCount, Stashed, Payload, QueuesSound;
      CountBound(pending - {id}, maxFrames);
      OneMore(|pending - {id}|, maxFrames);
    }
  }

  lemma OneMore(a: nat, c: nat)
    ensures (a + 1) * c == a * c + c
  {
  }

  /** What a frame needs, once the expired queues are gone, to be stashed. */
  ghost predicate Fits(lim: Limits, left: map<nat, Queue>, id: nat, f: EarlyFrame) {
    && (id in left || |left| < lim.channels)
    && Stashed(left) + f.length <= lim.bytes
    && (id in left ==> |left[id].frames| < lim.frames)
  }

  function Appended(left: map<nat, Queue>, id: nat, f: EarlyFrame, expires: int): map<nat, Queue> {
    var q := if id in left then left[id] else Queue([], 0, expires);
    left[id := q.(frames := q.frames + [f], bytes := q.bytes + f.length)]
  }

  lemma AppendedIs(left: map<nat, Queue>, id: nat, f: EarlyFrame, expires: int, q: Queue)
    requires q == if id in left then left[id] else Queue([], 0, expires)
    ensures Appended(left, id, f, expires) == left[id := q.(frames := q.frames + [f], bytes := q.bytes + f.length)]
  {
  }

  /** A stashed frame stands behind the earlier ones of its channel, and no other channel's queue changes. */
  lemma AppendedAtEnd(left: map<nat, Queue>, id: nat, f: EarlyFrame, expires: int)
    ensures var t := Appended(left, id, f, expires);
      && id in t && t == left[id := t[id]]
      && t[id].frames == (if id in left then left[id].frames else []) + [f]
      && t[id].expires == if id in left then left[id].expires else expires
  {
  }

  /** What happens to the stash: a frame is offered, or a queue goes (opened, expired or closed). */
  datatype StashOp = Offer(id: nat, f: EarlyFrame, expires: int) | Gone(id: nat)

  ghost function After(lim: Limits, pending: map<nat, Queue>, op: StashOp): map<nat, Queue> {
    match op
    case Offer(id, f, expires) => if Fits(lim, pending, id, f) then Appended(pending, id, f, expires) else pending
    case Gone(id) => pending - {id}
  }

  ghost function AfterAll(lim: Limits, ops: seq<StashOp>): map<nat, Queue> {
    if ops == [] then map[] else After(lim, AfterAll(lim, ops[..|ops| - 1]), ops[|ops| - 1])
  }

  lemma AfterSound(lim: Limits, pending: map<nat, Queue>, op: StashOp)
    requires QueuesSound(pending, lim.frames) && |pending| <= lim.channels && 1 <= lim.frames
    ensures var t := After(lim, pending, op); QueuesSound(t, lim.frames) && |t| <= lim.channels
  {
    hide Stashed, Payload;
    match op
    case Offer(id, f, expires) =>
      if Fits(lim, pending, id, f) {
        var q := if id in pending then pending[id] else Queue([], 0, expires);
        assert |q.frames| < lim.frames;
        QueueGrown(pending, id, q, f, lim.frames);
        AppendedIs(pending, id, f, expires, q);
        hide QueuesSound, Appended;
      }
    case Gone(id) =>
      KeysBound(pending, pending - {id});
  }

  lemma AfterAllSnoc(lim: Limits, ops: seq<StashOp>, op: StashOp)
    ensures AfterAll(lim, ops + [op]) == After(lim, AfterAll(lim, ops), op)
  {
    hide After;
    assert (ops + [op])[..|ops + [op]| - 1] == ops;
  }

  lemma {:induction false} AllSound(lim: Limits, ops: seq<StashOp>)
    requires 1 <= lim.frames
    ensures var t := AfterAll(lim, ops);
      QueuesSound(t, lim.frames) && |t| <= lim.channels && FrameCount(t) <= lim.channels * lim.frames
  {
    hide After, FrameCount;
    var t := AfterAll(lim, ops);
    if ops != [] {
      AllSound(lim, ops[..|ops| - 1]);
      AfterSound(lim, AfterAll(lim, ops[..|ops| - 1]), ops[|ops| - 1]);
    }
    CountBound(t, lim.frames);
    AtMost(|t|, lim.channels, lim.frames);
  }

  lemma AtMost(a: nat, b: nat, c: nat)
    requires a <= b
    ensures a * c <= b * c
  {
  }

  /** Frames without payload, such as FINs. */
  function Copies(f: EarlyFrame, n: nat): seq<EarlyFrame> {
    if n == 0 then [] else Copies(f, n - 1) + [f]
  }

  lemma {:induction false} CopiesWeighNothing(f: EarlyFrame, n: nat)
    requires f.length == 0
    ensures |Copies(f, n)| == n && Payload(Copies(f, n)) == 0
  {
    if n > 0 {
      CopiesWeighNothing(f, n - 1);
      PayloadSnoc(Copies(f, n - 1), f);
    }
  }

  function Filled(f: EarlyFrame, n: nat): map<nat, Queue> {
    if n == 0 then map[] else map[1 := Queue(Copies(f, n), 0, 0)]
  }

  lemma FilledWeighsNothing(f: EarlyFrame, n: nat)
    requires f.length == 0
    ensures Stashed(Filled(f, n)) == 0
  {
    if n > 0 {
      CopiesWeighNothing(f, n);
      StashedRemove(Filled(f, n), 1);
      assert Filled(f, n) - {1} == map[];
    }
  }

  lemma FillStep(lim: Limits, f: EarlyFrame, n: nat)
    requires f.length == 0 && n < lim.frames && 1 <= lim.channels
    ensures After(lim, Filled(f, n), Offer(1, f, 0)) == Filled(f, n + 1)
  {
    FilledWeighsNothing(f, n);
    CopiesWeighNothing(f, n);
    hide Stashed, Payload;
    assert Fits(lim, Filled(f, n), 1, f);
    hide Fits;
    var q := if n == 0 then Queue([], 0, 0) else Queue(Copies(f, n), 0, 0);
    assert q.frames == Copies(f, n);
    assert Appended(Filled(f, n), 1, f, 0) == map[1 := Queue(Copies(f, n) + [f], 0, 0)];
  }

  /** One channel's queue takes as many of them as the frame limit allows, whatever the byte limit. */
  lemma {:induction false} OneChannelFills(lim: Limits, f: EarlyFrame, n: nat) returns (ops: seq<StashOp>)
    requires f.length == 0 && n <= lim.frames && 1 <= lim.channels
    ensures AfterAll(lim, ops) == Filled(f, n)
  {
    ops := [];
    if n > 0 {
      hide After, Filled, AfterAll;
      ops := OneChannelFills(lim, f, n - 1);
      FillStep(lim, f, n - 1);
      AfterAllSnoc(lim, ops, Offer(1, f, 0));
      ops := ops + [Offer(1, f, 0)];
    }
  }

  /** With a second channel allowed, one more frame than the limit is held: its queue is counted alone. */
  lemma SecondChannelExceeds(lim: Limits, f: EarlyFrame) returns (ops: seq<StashOp>)
    requires f.length == 0 && 1 <= lim.frames && 2 <= lim.channels
    ensures FrameCount(AfterAll(lim, ops)) == lim.frames + 1
  {
    hide Stashed, AfterAll;
    ops := OneChannelFills(lim, f, lim.frames);
    FilledWeighsNothing(f, lim.frames);
    CopiesWeighNothing(f, lim.frames);
    AfterAllSnoc(lim, ops, Offer(2, f, 0));
    assert Fits(lim, Filled(f, lim.frames), 2, f);
    SecondCounts(Filled(f, lim.frames), f);
    ops := ops + [Offer(2, f, 0)];
  }

  lemma SecondCounts(before: map<nat, Queue>, f: EarlyFrame)
    requires before.Keys == {1}
    ensures FrameCount(Appended(before, 2, f, 0)) == |before[1].frames| + 1
  {
    var t := Appended(before, 2, f, 0);
    CountRemove(t, 2);
    assert t - {2} == before;
    CountRemove(before, 1);
    assert before - {1} == map[];
  }

  /** The frame limit bounds the frames of the whole session exactly when one channel may be stashed. */
  lemma FrameLimitIsPerSessionIff(lim: Limits)
    requires 1 <= lim.frames && 1 <= lim.channels
    ensures (forall ops :: FrameCount(AfterAll(lim, ops)) <= lim.frames) <==> lim.channels == 1
  {
    if lim.channels == 1 {
      forall ops ensures FrameCount(AfterAll(lim, ops)) <= lim.frames {
        AllSound(lim, ops);
      }
    } else {
      var ops := SecondChannelExceeds(lim, EarlyFrame(3, 0, 0));
    }
  }

  class Tables {
    const reliability: bool
    const maxChannels: nat
    const maxFrames: nat
    const maxBytes: nat
    const lingerTTL: nat
    const earlyTTL: nat

    var channels: map<nat, nat>        // id to channel object
    var pending: map<nat, Queue>
    var pendingBytes: int
    var closedIDs: map<nat, int>       // id to expiry
    var credited: nat                  // session credit given back for bytes nobody will read
    ghost var accepted: nat            // bytes ever stashed
    ghost var handedOver: nat          // bytes handed to a channel that was opened
    ghost var released: nat            // bytes released from the stash

    ghost predicate Valid()
      reads this
    {
      && Disjoint(channels, pending, closedIDs)
      && QueuesSound(pending, maxFrames)
      && pendingBytes == Stashed(pending) && pendingBytes <= maxBytes
      && |pending| <= maxChannels
      && |closedIDs| <= MaxClosedIDs
      && (!reliability ==> closedIDs == map[])
      && accepted == pendingBytes + handedOver + released
      && credited == (if reliability then 0 else released)
      && 1 <= maxChannels && 1 <= maxFrames
    }

    /** Zero limits take their defaults, and the byte limit is at most the frame limit's worth. */
    constructor (reliability: bool, maxChannels: nat, maxFrames: nat, maxBytes: nat, maxFrameData: nat,
                 lingerTTL: nat, earlyTTL: nat)
      ensures Valid() && channels == map[] && pending == map[] && closedIDs == map[]
      ensures this.reliability == reliability && this.lingerTTL == lingerTTL && this.earlyTTL == earlyTTL
      ensures this.maxFrames == (if maxFrames == 0 then 8 else maxFrames)
      ensures this.maxChannels == (if maxChannels == 0 then 4 else maxChannels)
      ensures var full := this.maxFrames * maxFrameData;
        this.maxBytes == if maxBytes == 0 || maxBytes > full then full else maxBytes
    {
      this.reliability := reliability;
      this.maxChannels := if maxChannels == 0 then 4 else maxChannels;
      var frames := if maxFrames == 0 then 8 else maxFrames;
      this.maxFrames := frames;
      this.maxBytes := if maxBytes == 0 || maxBytes > frames * maxFrameData then frames * maxFrameData else maxBytes;
      this.lingerTTL := lingerTTL;
      this.earlyTTL := earlyTTL;
      channels, pending, pendingBytes, closedIDs, credited := map[], map[], 0, map[], 0;
      accepted, handedOver, released := 0, 0, 0;
    }

    /** Gives session credit back for discarded frames, unless retransmission will. */
    method CreditDiscarded(frames: seq<EarlyFrame>)
      modifies this`credited
      ensures credited == old(credited) + (if reliability then 0 else Payload(frames))
    {
      var i := 0;
      while i < |frames|
        invariant 0 <= i <= |frames|
        invariant credited == old(credited) + (if reliability then 0 else Payload(frames[..i]))
      {
        assert frames[..i + 1][..i] == frames[..i];
        if !reliability {
          credited := credited + frames[i].length;
        }
        i := i + 1;
      }
      assert frames[..i] == frames;
    }

    /** Drops one stashed queue and, without Reliability, gives its bytes' credit back. */
    method ReleasePending(id: nat)
      requires Valid() && id in pending
      modifies this`pending, this`pendingBytes, this`credited, this`released
      ensures Valid() && pending == old(pending) - {id}
      ensures released == old(released) + old(pending)[id].bytes
    {
      hide Stashed, Payload;
      var q := pending[id];
      QueueRemoved(pending, id, maxFrames);
      CreditDiscarded(q.frames);
      released := released + q.bytes;
      pendingBytes := pendingBytes - q.bytes;
      pending := pending - {id};
    }

    method PrunePending(now: int)
      requires Valid()
      modifies this`pending, this`pendingBytes, this`credited, this`released
      ensures Valid() && pending == Unexpired(old(pending), now) && released >= old(released)
      ensures forall id :: id in pending <==> id in old(pending) && now <= old(pending)[id].expires
      ensures forall id :: id in pending ==> pending[id] == old(pending)[id]
    {
      hide Valid;
      var ids := pending.Keys;
      while ids != {}
        invariant Valid() && ids <= pending.Keys <= old(pending).Keys && released >= old(released)
        invariant forall id :: id in pending ==> pending[id] == old(pending)[id]
        invariant forall id :: id in old(pending) && id !in ids ==> (id in pending <==> now <= old(pending)[id].expires)
        decreases |ids|
      {
        var id :| id in ids;
        ids := ids - {id};
        if now > pending[id].expires {
          ReleasePending(id);
        }
      }
      assert pending == Unexpired(old(pending), now);
    }

    method PruneClosed(now: int)
      requires Valid()
      modifies this`closedIDs
      ensures Valid() && closedIDs == StillClosed(old(closedIDs), now)
      ensures forall id :: id in closedIDs <==> id in old(closedIDs) && now <= old(closedIDs)[id]
      ensures forall id :: id in closedIDs ==> closedIDs[id] == old(closedIDs)[id]
    {
      hide Stashed, Payload, QueuesSound;
      var marks := closedIDs.Keys;
      while marks != {}
        invariant marks <= closedIDs.Keys <= old(closedIDs).Keys
        invariant forall id :: id in closedIDs ==> closedIDs[id] == old(closedIDs)[id]
        invariant forall id :: id in old(closedIDs) && id !in marks ==> (id in closedIDs <==> now <= old(closedIDs)[id])
        decreases |marks|
      {
        var id :| id in marks;
        marks := marks - {id};
        if now > closedIDs[id] {
          closedIDs := closedIDs - {id};
        }
      }
      KeysBound(old(closedIDs), closedIDs);
      assert closedIDs == StillClosed(old(closedIDs), now);
    }

    /** Drops every expired queue and every expired closed marker, and nothing else. */
    method Prune(now: int)
      requires Valid()
      modifies this`pending, this`pendingBytes, this`credited, this`released, this`closedIDs
      ensures Valid() && released >= old(released)
      ensures pending == Unexpired(old(pending), now) && closedIDs == StillClosed(old(closedIDs), now)
    {
      hide Valid, Unexpired, StillClosed;
      PrunePending(now);
      PruneClosed(now);
    }

    /** A marker past its time is forgotten on the spot. */
    method RecentlyClosed(id: nat, now: int) returns (recent: bool)
      requires Valid()
      modifies this`closedIDs
      ensures Valid()
      ensures recent <==> id in old(closedIDs) && now <= old(closedIDs)[id]
      ensures recent <==> id in closedIDs
      ensures closedIDs == if recent then old(closedIDs) else old(closedIDs) - {id}
    {
      hide Stashed, Payload, QueuesSound;
      if id !in closedIDs {
        assert closedIDs - {id} == closedIDs;
        return false;
      }
      if now > closedIDs[id] {
        KeysBound(closedIDs, closedIDs - {id});
        closedIDs := closedIDs - {id};
        return false;
      }
      return true;
    }

    /** The marker that expires first. */
    method Oldest() returns (oldest: nat)
      requires closedIDs != map[]
      ensures oldest in closedIDs && forall id :: id in closedIDs ==> closedIDs[oldest] <= closedIDs[id]
    {
      var rest := closedIDs.Keys;
      oldest :| oldest in rest;
      rest := rest - {oldest};
      while rest != {}
        invariant rest <= closedIDs.Keys && oldest in closedIDs
        invariant forall id :: id in closedIDs && id !in rest ==> closedIDs[oldest] <= closedIDs[id]
        decreases |rest|
      {
        var id :| id in rest;
        rest := rest - {id};
        if closedIDs[id] < closedIDs[oldest] {
          oldest := id;
        }
      }
    }

    /** Makes room for one more marker: the expired go first, then the one that expires soonest. */
    method MakeRoom(now: int)
      requires Valid()
      modifies this`pending, this`pendingBytes, this`credited, this`released, this`closedIDs
      ensures Valid() && Roomy(old(closedIDs), closedIDs, now)
      ensures pending == if |old(closedIDs)| < MaxClosedIDs then old(pending) else Unexpired(old(pending), now)
    {
      hide Stashed, Payload, QueuesSound;
      if |closedIDs| >= MaxClosedIDs {
        Prune(now);
        if |closedIDs| >= MaxClosedIDs {
          var oldest := Oldest();
          assert closedIDs == (closedIDs - {oldest})[oldest := closedIDs[oldest]];
          closedIDs := closedIDs - {oldest};
        }
      }
    }

    /** What closing an id leaves of markers and queues: with room for its marker, nothing else changes. */
    ghost predicate Marked(marks: map<nat, int>, queues: map<nat, Queue>, id: nat, now: int)
      reads this`closedIDs, this`pending
    {
      var roomy := !reliability || |marks| < MaxClosedIDs;
      && (if reliability then Remembered(marks, closedIDs, id, now + lingerTTL, now) else closedIDs == marks)
      && (reliability ==> id in closedIDs && closedIDs[id] == now + lingerTTL)
      && (reliability && roomy ==> closedIDs == marks[id := now + lingerTTL])
      && pending == if roomy then queues - {id} else Unexpired(queues - {id}, now)
    }

    /**
     Remembers a closed id and drops whatever is stashed for it. With Reliability the id itself is
     always remembered; a marker still in force is given up only when all 64 are, and then it is
     one that expires no later than any other. Other queues go only when the memory is full, and then
     only expired ones.
     */
    method MarkClosed(id: nat, now: int)
      requires Valid() && id !in channels
      modifies this`pending, this`pendingBytes, this`credited, this`released, this`closedIDs
      ensures Valid() && id !in pending && Marked(old(closedIDs), old(pending), id, now)
    {
      hide Valid, Remembered, Unexpired;
      DropQueue(id);
      if reliability {
        Remember(id, now);
        RememberedInRoom(old(closedIDs), closedIDs, id, now + lingerTTL, now);
      }
    }

    method DropQueue(id: nat)
      requires Valid()
      modifies this`pending, this`pendingBytes, this`credited, this`released
      ensures Valid() && pending == old(pending) - {id}
    {
      hide Valid;
      if id in pending {
        ReleasePending(id);
      } else {
        assert pending - {id} == pending;
      }
    }

    method Remember(id: nat, now: int)
      requires Valid() && reliability && id !in channels && id !in pending
      modifies this`pending, this`pendingBytes, this`credited, this`released, this`closedIDs
      ensures Valid() && id !in pending && Remembered(old(closedIDs), closedIDs, id, now + lingerTTL, now)
      ensures pending == if |old(closedIDs)| < MaxClosedIDs then old(pending) else Unexpired(old(pending), now)
    {
      hide Stashed, Payload, QueuesSound, StillClosed;
      MakeRoom(now);
      AddMarker(closedIDs, id, now + lingerTTL);
      assert |closedIDs| < MaxClosedIDs;
      closedIDs := closedIDs[id := now + lingerTTL];
    }

    /** Opening hands over the frames stashed for the id, in arrival order, unless they have expired. */
    method OpenChannel(id: nat, ch: nat, now: int) returns (ok: bool, frames: seq<EarlyFrame>)
      requires Valid()
      modifies this
      ensures Valid()
      ensures ok <==> id !in old(channels)
      ensures !ok ==> unchanged(this) && frames == []
      ensures ok ==>
        channels == old(channels)[id := ch] && pending == old(pending) - {id} && closedIDs == old(closedIDs) - {id}
      ensures ok ==>
        frames == if id in old(pending) && now <= old(pending)[id].expires then old(pending)[id].frames else []
      ensures ok ==> handedOver == old(handedOver) + Payload(frames) && accepted == old(accepted)
    {
      hide Valid, Payload;
      if id in channels {
        return false, [];
      }
      Forget(id);
      frames := Claim(id, now);
      Publish(id, ch);
      ok := true;
    }

    method Forget(id: nat)
      requires Valid()
      modifies this`closedIDs
      ensures Valid() && closedIDs == old(closedIDs) - {id}
    {
      hide Stashed, Payload, QueuesSound;
      KeysBound(closedIDs, closedIDs - {id});
      closedIDs := closedIDs - {id};
    }

    /** Empties the stash of an id: into the caller's hands, or back to the allocator if expired. */
    method Claim(id: nat, now: int) returns (frames: seq<EarlyFrame>)
      requires Valid()
      modifies this`pending, this`pendingBytes, this`handedOver, this`credited, this`released
      ensures Valid() && pending == old(pending) - {id}
      ensures frames == if id in old(pending) && now <= old(pending)[id].expires then old(pending)[id].frames else []
      ensures handedOver == old(handedOver) + Payload(frames)
    {
      hide Valid, Payload;
      EmptyPayload();
      frames := [];
      if id in pending {
        if now > pending[id].expires {
          ReleasePending(id);
        } else {
          frames := pending[id].frames;
          TakeOver(id);
        }
      } else {
        assert pending - {id} == pending;
      }
    }

    method Publish(id: nat, ch: nat)
      requires Valid() && id !in channels && id !in pending && id !in closedIDs
      modifies this`channels
      ensures Valid() && channels == old(channels)[id := ch]
    {
      hide Stashed, Payload, QueuesSound;
      channels := channels[id := ch];
    }

    method TakeOver(id: nat)
      requires Valid() && id in pending
      modifies this`pending, this`pendingBytes, this`handedOver
      ensures Valid() && pending == old(pending) - {id}
      ensures handedOver == old(handedOver) + Payload(old(pending)[id].frames)
    {
      hide Stashed, Payload;
      QueueRemoved(pending, id, maxFrames);
      handedOver := handedOver + pending[id].bytes;
      pendingBytes := pendingBytes - pending[id].bytes;
      pending := pending - {id};
    }

    method Unpublish(id: nat)
      requires Valid()
      modifies this`channels
      ensures Valid() && channels == old(channels) - {id}
    {
      hide Stashed, Payload, QueuesSound;
      channels := channels - {id};
    }

    /** Removes the id only while it still names that very channel. */
    method RemoveChannelIf(id: nat, ch: nat, now: int)
      requires Valid()
      modifies this
      ensures Valid()
      ensures accepted == old(accepted) && handedOver == old(handedOver)
      ensures id in old(channels) && old(channels)[id] == ch ==>
        channels == old(channels) - {id} && Marked(old(closedIDs), old(pending), id, now)
      ensures !(id in old(channels) && old(channels)[id] == ch) ==> unchanged(this)
    {
      hide Valid, Marked;
      if id in channels && channels[id] == ch {
        Unpublish(id);
        MarkClosed(id, now);
      }
    }

    ghost function Lim(): Limits {
      Limits(maxChannels, maxFrames, maxBytes)
    }

    /** Whatever was opened, closed, stashed and pruned: the session holds at most channels times frames. */
    lemma FramesHeld()
      requires Valid()
      ensures FrameCount(pending) <= maxChannels * maxFrames
      ensures maxChannels == 1 ==> FrameCount(pending) <= maxFrames
    {
      CountBound(pending, maxFrames);
      AtMost(|pending|, maxChannels, maxFrames);
    }

    method Append(id: nat, f: EarlyFrame, now: int)
      requires Valid() && id !in channels && id !in closedIDs
      requires (id in pending || |pending| < maxChannels) && pendingBytes + f.length <= maxBytes
      requires id in pending ==> |pending[id].frames| < maxFrames
      modifies this`pending, this`pendingBytes, this`accepted
      ensures Valid() && pending == Appended(old(pending), id, f, now + earlyTTL)
      ensures accepted == old(accepted) + f.length
    {
      hide Stashed, Payload;
      hide QueuesSound;
      var q := if id in pending then pending[id] else Queue([], 0, now + earlyTTL);
      QueueGrown(pending, id, q, f, maxFrames);
      AppendedIs(pending, id, f, now + earlyTTL, q);
      hide Appended;
      pending := pending[id := q.(frames := q.frames + [f], bytes := q.bytes + f.length)];
      pendingBytes := pendingBytes + f.length;
      accepted := accepted + f.length;
    }

    /** Keeps an early frame behind those already stashed for its id, or refuses it. */
    method Stash(id: nat, f: EarlyFrame, first: int, now: int) returns (ok: bool)
      requires Valid() && id !in channels
      modifies this
      ensures Valid() && channels == old(channels) && handedOver == old(handedOver) && released >= old(released)
      ensures var recent := id in old(closedIDs) && first <= old(closedIDs)[id];
        var left := Unexpired(old(pending), now);
        && (ok <==> !recent && Fits(Lim(), left, id, f))
        && (recent ==> pending == old(pending) && closedIDs == old(closedIDs))
        && (!recent ==> pending == After(Lim(), left, Offer(id, f, now + earlyTTL)))
        && (!recent ==> closedIDs == StillClosed(old(closedIDs) - {id}, now))
      ensures ok ==> Grown(Unexpired(old(pending), now), id, f, now + earlyTTL)
      ensures accepted == old(accepted) + if ok then f.length else 0
    {
      hide Valid, Fits, After, Unexpired, StillClosed, Grown, Stashed;
      var recent := RecentlyClosed(id, first);
      if recent {
        return false;
      }
      PruneFor(id, now);
      ok := OfferFrame(id, f, now);
    }

    method PruneFor(id: nat, now: int)
      requires Valid() && id !in closedIDs
      modifies this`pending, this`pendingBytes, this`credited, this`released, this`closedIDs
      ensures Valid() && released >= old(released) && id !in closedIDs
      ensures pending == Unexpired(old(pending), now) && closedIDs == StillClosed(old(closedIDs), now)
    {
      hide Valid, Unexpired, StillClosed;
      Prune(now);
    }

    /** The stash holds what was left before and, behind the id's earlier frames, one more. */
    ghost predicate Grown(left: map<nat, Queue>, id: nat, f: EarlyFrame, expires: int)
      reads this
    {
      && id in pending && pending == left[id := pending[id]]
      && pending[id].frames == (if id in left then left[id].frames else []) + [f]
      && pending[id].expires == if id in left then left[id].expires else expires
    }

    /** The limits' tests, in the program's order. */
    method OfferFrame(id: nat, f: EarlyFrame, now: int) returns (ok: bool)
      requires Valid() && id !in channels && id !in closedIDs
      modifies this`pending, this`pendingBytes, this`accepted
      ensures Valid() && (ok <==> Fits(Lim(), old(pending), id, f))
      ensures ok <==>
        && (id in old(pending) || |old(pending)| < maxChannels)
        && Stashed(old(pending)) + f.length <= maxBytes
        && (id in old(pending) ==> |old(pending)[id].frames| < maxFrames)
      ensures !ok ==> pending == old(pending)
      ensures ok ==> Grown(old(pending), id, f, now + earlyTTL)
      ensures pending == After(Lim(), old(pending), Offer(id, f, now + earlyTTL))
      ensures accepted == old(accepted) + if ok then f.length else 0
    {
      hide Stashed, Payload, QueuesSound, Appended, Disjoint;
      if id !in pending && |pending| >= maxChannels {
        return false;
      }
      if pendingBytes + f.length > maxBytes {
        return false;
      }
      if id in pending && |pending[id].frames| >= maxFrames {
        return false;
      }
      AppendedAtEnd(pending, id, f, now + earlyTTL);
      Append(id, f, now);
      ok := true;
    }

    method Discard(f: EarlyFrame)
      requires Valid()
      modifies this`credited, this`accepted, this`released
      ensures Valid()
      ensures accepted == old(accepted) + f.length && released == old(released) + f.length
    {
      hide Stashed, Payload;
      PayloadSnoc([], f);
      EmptyPayload();
      assert [] + [f] == [f];
      CreditDiscarded([f]);
      accepted := accepted + f.length;
      released := released + f.length;
    }

    /**
     A data frame off the wire goes to its open channel, into the stash, or to waste; every byte
     that does not reach a channel is on the books, and wasted bytes are credited without Reliability.
     */
    method ReceiveData(id: nat, f: EarlyFrame, early: int, first: int, now: int) returns (v: Verdict)
      requires Valid()
      modifies this
      ensures Valid() && channels == old(channels) && handedOver == old(handedOver)
      ensures v.Feed? <==> id in old(channels)
      ensures v.Feed? ==> v.ch == channels[id] && unchanged(this)
      ensures v.Late? <==> id !in old(channels) && id in old(closedIDs) && early <= old(closedIDs)[id]
      ensures v.Held? <==>
        id !in old(channels) && !(id in old(closedIDs) && early <= old(closedIDs)[id]) &&
          Fits(Lim(), Unexpired(old(pending), now), id, f)
      ensures v.Held? ==> Grown(Unexpired(old(pending), now), id, f, now + earlyTTL)
      ensures v.Late? ==> pending == old(pending) && closedIDs == old(closedIDs)
      ensures v.Unknown? ==> pending == Unexpired(old(pending), now)
      ensures v.Held? || v.Unknown? ==> closedIDs == StillClosed(old(closedIDs) - {id}, now)
      ensures !v.Feed? ==> accepted == old(accepted) + f.length
      ensures v.Late? || v.Unknown? ==> released >= old(released) + f.length
    {
      hide Valid, Fits, Unexpired, StillClosed;
      if id in channels {
        return Feed(channels[id]);
      }
      var late := RecentlyClosed(id, early);
      if late {
        Discard(f);
        return Late;
      }
      var held := Stash(id, f, first, now);
      assert old(closedIDs) - {id} - {id} == old(closedIDs) - {id};
      if held {
        return Held;
      }
      Discard(f);
      return Unknown;
    }
  }

  lemma EmptyPayload()
    ensures Payload([]) == 0
  {
  }

  lemma PayloadSnoc(frames: seq<EarlyFrame>, f: EarlyFrame)
    ensures Payload(frames + [f]) == Payload(frames) + f.length
  {
    assert (frames + [f])[..|frames|] == frames;
  }

  lemma QueueGrown(pending: map<nat, Queue>, id: nat, q: Queue, f: EarlyFrame, maxFrames: nat)
    requires QueuesSound(pending, maxFrames) && |q.frames| < maxFrames
    requires if id in pending then q == pending[id] else q.frames == [] && q.bytes == 0
    ensures var grown := pending[id := q.(frames := q.frames + [f], bytes := q.bytes + f.length)];
      && QueuesSound(grown, maxFrames) && Stashed(grown) == Stashed(pending) + f.length
      && |grown| == |pending| + (if id in pending then 0 else 1)
  {
    hide Stashed, Payload;
    EmptyPayload();
    var longer := q.(frames := q.frames + [f], bytes := q.bytes + f.length);
    PayloadSnoc(q.frames, f);
    StashedUpdate(pending, id, longer);
    if id in pending {
      StashedRemove(pending, id);
      assert pending[id := longer].Keys == pending.Keys;
    }
  }
}
