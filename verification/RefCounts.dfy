/**
 Reference-counted retransmission records and the buffers they share with queued write
 frames (write_scheduler.go, channel.go): every goroutine's steps interleaved.

 A record is held once by its channel's unacked list, once by every local list that has
 retained it, and once by every write frame carrying it. A frame without a record owns its
 buffer outright. A release that finds nothing to release, a second return of a buffer, and
 a write of a buffer that is no longer what the frame was made for are faults.
 */
module RefCounts {
  import opened Bytes

  datatype Record = Record(buf: Option<nat>, refs: int, data: seq<byte>)

  /** `data` is what the sender put in the buffer; the program keeps only the buffer. */
  datatype Frame = Frame(buf: Option<nat>, record: Option<nat>, data: seq<byte>)

  datatype Place = Hands | Writes | Control | Batch

  /** What a holder holds: one count on a record, or a buffer of its own. */
  datatype Key = OfRecord(id: nat) | OfBuffer(id: nat)

  datatype State = State(
    live: map<nat, Record>,      // records not in the record pool
    out: map<nat, seq<byte>>,    // buffers not in the allocator, with their bytes
    unacked: seq<seq<nat>>,      // one list per channel
    loose: seq<nat>,             // records in local lists: retained or about to be released
    hands: seq<Frame>,           // frames in a local variable, being enqueued
    writes: seq<Frame>,
    control: seq<Frame>,
    batch: seq<Frame>,
    fault: bool)

  function At(s: State, p: Place): seq<Frame> {
    match p
    case Hands => s.hands
    case Writes => s.writes
    case Control => s.control
    case Batch => s.batch
  }

  function With(s: State, p: Place, fs: seq<Frame>): (t: State)
    ensures t.live == s.live && t.out == s.out && t.fault == s.fault && t.unacked == s.unacked && t.loose == s.loose
    ensures At(t, p) == fs && forall q :: q != p ==> At(t, q) == At(s, q)
  {
    match p
    case Hands => s.(hands := fs)
    case Writes => s.(writes := fs)
    case Control => s.(control := fs)
    case Batch => s.(batch := fs)
  }

  function Remove<T>(xs: seq<T>, i: nat): seq<T>
    requires i < |xs|
  {
    xs[..i] + xs[i + 1..]
  }

  // ----- the operations -----

  /** The allocator's Put. */
  function PutBuffer(s: State, b: nat): State {
    if b in s.out then s.(out := s.out - {b}) else s.(fault := true)
  }

  /** unackedFrame.release: the last count returns the buffer and recycles the record. */
  function Release(s: State, r: nat): State {
    if r !in s.live || s.live[r].refs <= 0 then s.(fault := true)
    else if s.live[r].refs > 1 then s.(live := s.live[r := s.live[r].(refs := s.live[r].refs - 1)])
    else
      var gone := s.(live := s.live - {r});
      if s.live[r].buf.Some? then PutBuffer(gone, s.live[r].buf.value) else gone
  }

  function Retain(s: State, r: nat): State {
    if r !in s.live then s.(fault := true)
    else s.(live := s.live[r := s.live[r].(refs := s.live[r].refs + 1)])
  }

  /** releaseFrame. */
  function ReleaseFrame(s: State, f: Frame): State {
    if f.record.Some? then Release(s, f.record.value)
    else if f.buf.Some? then PutBuffer(s, f.buf.value)
    else s
  }

  function Drop(s: State, p: Place, i: nat): State
    requires i < |At(s, p)|
  {
    ReleaseFrame(With(s, p, Remove(At(s, p), i)), At(s, p)[i])
  }

  function Add(s: State, p: Place, f: Frame): State {
    With(s, p, At(s, p) + [f])
  }

  function Move(s: State, p: Place, i: nat, q: Place): State
    requires i < |At(s, p)|
  {
    Add(With(s, p, Remove(At(s, p), i)), q, At(s, p)[i])
  }

  /** A new record with its two counts: the unacked list's and the frame's. */
  function Track(s: State, c: nat, r: nat, buf: Option<nat>, data: seq<byte>): State
    requires c < |s.unacked|
  {
    var made := s.(live := s.live[r := Record(buf, 2, data)], unacked := s.unacked[c := s.unacked[c] + [r]]);
    Add(made, Hands, Frame(buf, Some(r), data))
  }

  datatype Step =
    | WriteReliable(c: nat, r: nat, b: nat, data: seq<byte>)  // a pooled or new record and buffer
    | WriteRaw(b: nat, data: seq<byte>)                       // the same with Reliability off
    | SendFin(c: nat, r: nat)
    | SendControl
    | Enqueue(i: nat)
    | EnqueueControl(i: nat)
    | EnqueueFails(i: nat)
    | Collect(control: bool)
    | Put(i: nat)              // the batch writes frame i's buffer to the transport
    | ReleaseBatch(i: nat)     // merged away, flushed, or dropped at shutdown
    | Drain(control: bool)
    | RetainUnacked(c: nat, k: nat)
    | Retransmit(j: nat)
    | GiveBack(j: nat)
    | Acknowledge(c: nat)      // the head of one unacked list
    | Cleanup(c: nat)

  predicate Enabled(s: State, step: Step) {
    match step
    case WriteReliable(c, r, b, _) => c < |s.unacked| && r !in s.live && b !in s.out
    case WriteRaw(b, _) => b !in s.out
    case SendFin(c, r) => c < |s.unacked| && r !in s.live
    case SendControl => true
    case Enqueue(i) => i < |s.hands|
    case EnqueueControl(i) => i < |s.hands|
    case EnqueueFails(i) => i < |s.hands|
    case Collect(control) => if control then s.control != [] else s.writes != []
    case Put(i) => i < |s.batch|
    case ReleaseBatch(i) => i < |s.batch|
    case Drain(control) => if control then s.control != [] else s.writes != []
    case RetainUnacked(c, k) => c < |s.unacked| && k < |s.unacked[c]|
    case Retransmit(j) => j < |s.loose|
    case GiveBack(j) => j < |s.loose|
    case Acknowledge(c) => c < |s.unacked| && s.unacked[c] != []
    case Cleanup(c) => c < |s.unacked|
  }

  function Apply(s: State, step: Step): State
    requires Enabled(s, step)
  {
    match step
    case WriteReliable(c, r, b, data) => Track(s.(out := s.out[b := data]), c, r, Some(b), data)
    case WriteRaw(b, data) => Add(s.(out := s.out[b := data]), Hands, Frame(Some(b), None, data))
    case SendFin(c, r) => Track(s, c, r, None, [])
    case SendControl => Add(s, Hands, Frame(None, None, []))
    case Enqueue(i) => Move(s, Hands, i, Writes)
    case EnqueueControl(i) => Move(s, Hands, i, Control)
    case EnqueueFails(i) => Drop(s, Hands, i)
    case Collect(control) => Move(s, if control then Control else Writes, 0, Batch)
    case Put(i) =>
      var f := s.batch[i];
      if f.buf.Some? && (f.buf.value !in s.out || s.out[f.buf.value] != f.data) then s.(fault := true) else s
    case ReleaseBatch(i) => Drop(s, Batch, i)
    case Drain(control) => Drop(s, if control then Control else Writes, 0)
    case RetainUnacked(c, k) =>
      var r := s.unacked[c][k];
      Retain(s.(loose := s.loose + [r]), r)
    case Retransmit(j) =>
      if s.loose[j] !in s.live then s.(fault := true) else
      var record := s.live[s.loose[j]];
      Add(s.(loose := Remove(s.loose, j)), Hands, Frame(record.buf, Some(s.loose[j]), record.data))
    case GiveBack(j) => Release(s.(loose := Remove(s.loose, j)), s.loose[j])
    case Acknowledge(c) => Release(s.(unacked := s.unacked[c := s.unacked[c][1..]]), s.unacked[c][0])
    case Cleanup(c) => s.(loose := s.loose + s.unacked[c], unacked := s.unacked[c := []])
  }

  function NewState(channels: nat): State {
    State(map[], map[], seq(channels, _ => []), [], [], [], [], [], false)
  }

  ghost predicate Runs(s: State, steps: seq<Step>, t: State)
    decreases |steps|
  {
    if steps == [] then s == t
    else Enabled(s, steps[0]) && Runs(Apply(s, steps[0]), steps[1..], t)
  }

  // ----- counting holders -----

  function KeyOf(f: Frame): Option<Key> {
    if f.record.Some? then Some(OfRecord(f.record.value))
    else if f.buf.Some? then Some(OfBuffer(f.buf.value))
    else None
  }

  predicate Names(f: Frame, k: Key) {
    KeyOf(f) == Some(k)
  }

  function Naming(k: Key): Frame -> bool {
    (f: Frame) => Names(f, k)
  }

  /** How many of the frames hold k. */
  function Named(fs: seq<Frame>, k: Key): nat {
    Tally(Naming(k), fs)
  }

  function Listed(unacked: seq<seq<nat>>, r: nat): nat {
    if unacked == [] then 0 else multiset(unacked[0])[r] + Listed(unacked[1..], r)
  }

  function InFrames(s: State, k: Key): nat {
    Named(s.hands, k) + Named(s.writes, k) + Named(s.control, k) + Named(s.batch, k)
  }

  /** How many holders a record or a buffer has. */
  function Holders(s: State, k: Key): nat {
    InFrames(s, k) + (if k.OfRecord? then Listed(s.unacked, k.id) + multiset(s.loose)[k.id] else 0)
  }

  lemma NamedRemove(fs: seq<Frame>, i: nat, k: Key)
    requires i < |fs|
    ensures Named(fs, k) == Named(Remove(fs, i), k) + (if KeyOf(fs[i]) == Some(k) then 1 else 0)
  {
    TallyConcat(Naming(k), fs[..i], fs[i..]);
    TallyConcat(Naming(k), fs[..i], fs[i + 1..]);
    assert fs == fs[..i] + fs[i..];
  }

  lemma NamedSeen(fs: seq<Frame>, i: nat)
    requires i < |fs| && KeyOf(fs[i]).Some?
    ensures Named(fs, KeyOf(fs[i]).value) > 0
  {
    TallyZero(Naming(KeyOf(fs[i]).value), fs);
  }

  lemma {:induction false} ListedUpdate(unacked: seq<seq<nat>>, c: nat, xs: seq<nat>, r: nat)
    requires c < |unacked|
    ensures Listed(unacked[c := xs], r) == Listed(unacked, r) - multiset(unacked[c])[r] + multiset(xs)[r]
  {
    if c == 0 {
      assert unacked[c := xs][1..] == unacked[1..];
    } else {
      assert unacked[c := xs][1..] == unacked[1..][c - 1 := xs];
      ListedUpdate(unacked[1..], c - 1, xs, r);
    }
  }

  lemma RemoveCounts(xs: seq<nat>, j: nat)
    requires j < |xs|
    ensures multiset(xs) == multiset(Remove(xs, j)) + multiset{xs[j]}
  {
    assert xs == xs[..j] + [xs[j]] + xs[j + 1..];
  }

  // ----- the invariant -----

  function One(extra: Option<Key>, k: Key): nat {
    if extra == Some(k) then 1 else 0
  }

  /** Counts equal holders; `extra` is one more holder, outside every list. */
  ghost predicate Balanced(s: State, extra: Option<Key>) {
    && (forall r: nat ::
          Holders(s, OfRecord(r)) + One(extra, OfRecord(r)) == (if r in s.live then s.live[r].refs else 0))
    && (forall r :: r in s.live ==> s.live[r].refs > 0)
  }

  /** Every buffer outside the allocator has one owner: a live record, or one frame without a record. */
  ghost predicate BuffersOwned(s: State, extra: Option<Key>) {
    && (forall b: nat :: Holders(s, OfBuffer(b)) + One(extra, OfBuffer(b)) <= (if b in s.out then 1 else 0))
    && (forall r :: r in s.live && s.live[r].buf.Some? ==> RecordOwns(s, extra, r, s.live[r].buf.value))
    && (forall b: nat :: b in s.out && Holders(s, OfBuffer(b)) + One(extra, OfBuffer(b)) == 0 ==> HasRecord(s, b))
  }

  ghost predicate RecordOwns(s: State, extra: Option<Key>, r: nat, b: nat)
    requires r in s.live
  {
    && b in s.out && s.out[b] == s.live[r].data
    && Holders(s, OfBuffer(b)) + One(extra, OfBuffer(b)) == 0
    && (forall q :: q in s.live && s.live[q].buf == Some(b) ==> q == r)
  }

  ghost predicate HasRecord(s: State, b: nat) {
    exists r :: r in s.live && s.live[r].buf == Some(b)
  }

  predicate GoodFrame(s: State, f: Frame) {
    if f.record.Some? then
      f.record.value in s.live && f.buf == s.live[f.record.value].buf && f.data == s.live[f.record.value].data
    else f.buf.Some? ==> f.buf.value in s.out && s.out[f.buf.value] == f.data
  }

  ghost predicate FramesGood(s: State) {
    forall p, f :: f in At(s, p) ==> GoodFrame(s, f)
  }

  ghost predicate InvWith(s: State, extra: Option<Key>) {
    !s.fault && Balanced(s, extra) && BuffersOwned(s, extra) && FramesGood(s)
  }

  ghost predicate Inv(s: State) {
    InvWith(s, None)
  }

  lemma HoldersWith(s: State, p: Place, fs: seq<Frame>, k: Key)
    ensures Holders(With(s, p, fs), k) == Holders(s, k) - Named(At(s, p), k) + Named(fs, k)
  {
  }

  /** Only the counts of holders matter when nothing else changes. */
  lemma Rebalance(s: State, extra: Option<Key>, t: State, extra': Option<Key>)
    requires InvWith(s, extra)
    requires t.live == s.live && t.out == s.out && !t.fault && FramesGood(t)
    requires forall k :: Holders(t, k) + One(extra', k) == Holders(s, k) + One(extra, k)
    ensures InvWith(t, extra')
  {
    hide Holders, FramesGood, One;
    assert Balanced(t, extra');
    forall r | r in t.live && t.live[r].buf.Some? ensures RecordOwns(t, extra', r, t.live[r].buf.value) {
      assert RecordOwns(s, extra, r, s.live[r].buf.value);
    }
    forall b: nat | b in t.out && Holders(t, OfBuffer(b)) + One(extra', OfBuffer(b)) == 0 ensures HasRecord(t, b) {
      assert HasRecord(s, b);
    }
    assert BuffersOwned(t, extra');
  }

  lemma TakeFrame(s: State, p: Place, i: nat)
    requires Inv(s) && i < |At(s, p)|
    ensures InvWith(With(s, p, Remove(At(s, p), i)), KeyOf(At(s, p)[i]))
    ensures GoodFrame(s, At(s, p)[i])
  {
    hide Holders, Balanced, BuffersOwned, Named;
    var t := With(s, p, Remove(At(s, p), i));
    forall k ensures Holders(t, k) + One(KeyOf(At(s, p)[i]), k) == Holders(s, k) + One(None, k) {
      HoldersWith(s, p, Remove(At(s, p), i), k);
      NamedRemove(At(s, p), i, k);
    }
    forall q, f | f in At(t, q) ensures GoodFrame(t, f) {
      assert GoodFrame(s, f);
    }
    Rebalance(s, None, t, KeyOf(At(s, p)[i]));
  }

  lemma AddFrame(s: State, p: Place, f: Frame)
    requires InvWith(s, KeyOf(f)) && GoodFrame(s, f)
    ensures Inv(Add(s, p, f))
  {
    var t := Add(s, p, f);
    forall k ensures Holders(t, k) + One(None, k) == Holders(s, k) + One(KeyOf(f), k) {
      HoldersWith(s, p, At(s, p) + [f], k);
      TallyConcat(Naming(k), At(s, p), [f]);
    }
    hide Holders, Balanced, BuffersOwned, Named;
    forall q, g | g in At(t, q) ensures GoodFrame(t, g) {
      assert GoodFrame(s, g);
    }
    Rebalance(s, KeyOf(f), t, None);
  }

  // ----- one lemma for each operation -----

  lemma {:induction false} NotHeld(fs: seq<Frame>, k: Key)
    requires Named(fs, k) == 0
    ensures forall f :: f in fs ==> KeyOf(f) != Some(k)
  {
    forall f | f in fs ensures KeyOf(f) != Some(k) {
      var i :| 0 <= i < |fs| && fs[i] == f;
      if KeyOf(f) == Some(k) {
        NamedSeen(fs, i);
      }
    }
  }

  lemma NoFrameHolds(s: State, k: Key)
    requires Holders(s, k) == 0
    ensures forall p, f :: f in At(s, p) ==> KeyOf(f) != Some(k)
  {
    NotHeld(s.hands, k);
    NotHeld(s.writes, k);
    NotHeld(s.control, k);
    NotHeld(s.batch, k);
    hide Named;
    forall p, f | f in At(s, p) ensures KeyOf(f) != Some(k) {
      match p {
        case Hands =>
        case Writes =>
        case Control =>
        case Batch =>
      }
    }
  }

  /** Returning a buffer nobody else owns. */
  lemma PutBufferKeeps(s: State, b: nat)
    requires InvWith(s, Some(OfBuffer(b)))
    ensures Inv(PutBuffer(s, b))
  {
    hide Holders;
    var t := PutBuffer(s, b);
    assert Holders(s, OfBuffer(b)) + One(Some(OfBuffer(b)), OfBuffer(b)) == 1;
    NoFrameHolds(s, OfBuffer(b));
    forall k ensures Holders(t, k) == Holders(s, k) { SameHolders(s, t, k); }
    assert Balanced(t, None);
    forall r | r in t.live && t.live[r].buf.Some? ensures RecordOwns(t, None, r, t.live[r].buf.value) {
      assert RecordOwns(s, Some(OfBuffer(b)), r, s.live[r].buf.value);
    }
    forall x: nat | x in t.out && Holders(t, OfBuffer(x)) + One(None, OfBuffer(x)) == 0 ensures HasRecord(t, x) {
      assert HasRecord(s, x);
    }
    forall p, f | f in At(t, p) ensures GoodFrame(t, f) {
      assert f in At(s, p) && GoodFrame(s, f);
      if f.record.Some? {
        var r := f.record.value;
      } else if f.buf.Some? {
        assert KeyOf(f) == Some(OfBuffer(f.buf.value));
      }
    }
  }

  lemma SameHolders(s: State, t: State, k: Key)
    requires t.unacked == s.unacked && t.loose == s.loose
    requires t.hands == s.hands && t.writes == s.writes && t.control == s.control && t.batch == s.batch
    ensures Holders(t, k) == Holders(s, k)
  {
  }

  /** One release among several. */
  lemma ReleaseOneOfMany(s: State, r: nat)
    requires InvWith(s, Some(OfRecord(r))) && r in s.live && s.live[r].refs > 1
    ensures Inv(Release(s, r))
  {
    hide Holders;
    var t := Release(s, r);
    forall k ensures Holders(t, k) == Holders(s, k) { SameHolders(s, t, k); }
    CountChange(s, t, Some(OfRecord(r)), None);
  }

  lemma OneElsewhere(extra: Option<Key>, extra': Option<Key>, r: nat)
    ensures One(extra, OfRecord(r)) == 0 || extra == Some(OfRecord(r))
    ensures One(extra', OfRecord(r)) == 0 || extra' == Some(OfRecord(r))
  {
  }

  ghost predicate SameBuffers(s: State, t: State) {
    && t == s.(live := t.live) && t.live.Keys == s.live.Keys
    && forall r :: r in s.live ==> t.live[r].buf == s.live[r].buf && t.live[r].data == s.live[r].data
  }

  lemma OwnsAfter(s: State, t: State, extra: Option<Key>, extra': Option<Key>, r: nat)
    requires SameBuffers(s, t) && r in s.live && s.live[r].buf.Some?
    requires RecordOwns(s, extra, r, s.live[r].buf.value)
    requires extra'.Some? ==> extra'.value.OfRecord?
    ensures RecordOwns(t, extra', r, t.live[r].buf.value)
  {
    SameHolders(s, t, OfBuffer(s.live[r].buf.value));
    hide Holders;
  }

  lemma HasAfter(s: State, t: State, extra: Option<Key>, extra': Option<Key>, x: nat)
    requires SameBuffers(s, t)
    requires extra.Some? ==> extra.value.OfRecord?
    requires extra'.Some? ==> extra'.value.OfRecord?
    ensures Holders(t, OfBuffer(x)) + One(extra', OfBuffer(x)) == Holders(s, OfBuffer(x)) + One(extra, OfBuffer(x))
    ensures HasRecord(s, x) ==> HasRecord(t, x)
  {
    SameHolders(s, t, OfBuffer(x));
    hide Holders;
  }

  lemma FramesAfter(s: State, t: State)
    requires SameBuffers(s, t) && FramesGood(s)
    ensures FramesGood(t)
  {
    forall p, f | f in At(t, p) ensures GoodFrame(t, f) {
      assert f in At(s, p) && GoodFrame(s, f);
    }
  }

  /** Changing counts alone, in step with the holders. */
  lemma CountChange(s: State, t: State, extra: Option<Key>, extra': Option<Key>)
    requires InvWith(s, extra)
    requires SameBuffers(s, t)
    requires forall r :: r in s.live ==> t.live[r].refs > 0
    requires forall r: nat :: r in s.live ==>
      t.live[r].refs - s.live[r].refs == One(extra', OfRecord(r)) - One(extra, OfRecord(r))
    requires extra.Some? ==> extra.value.OfRecord?
    requires extra'.Some? ==> extra'.value.OfRecord? && extra'.value.id in s.live
    ensures InvWith(t, extra')
  {
    hide Holders, FramesGood, RecordOwns, HasRecord, One;
    forall k ensures Holders(t, k) == Holders(s, k) { SameHolders(s, t, k); }
    assert Balanced(t, extra') by {
      forall r: nat
        ensures Holders(t, OfRecord(r)) + One(extra', OfRecord(r)) == (if r in t.live then t.live[r].refs else 0)
      {
        OneElsewhere(extra, extra', r);
      }
    }
    forall r | r in t.live && t.live[r].buf.Some? ensures RecordOwns(t, extra', r, t.live[r].buf.value) {
      OwnsAfter(s, t, extra, extra', r);
    }
    forall x: nat
      ensures Holders(t, OfBuffer(x)) + One(extra', OfBuffer(x)) == Holders(s, OfBuffer(x)) + One(extra, OfBuffer(x))
      ensures HasRecord(s, x) ==> HasRecord(t, x)
    {
      HasAfter(s, t, extra, extra', x);
    }
    FramesAfter(s, t);
  }

  function BufferKey(buf: Option<nat>): Option<Key> {
    if buf.Some? then Some(OfBuffer(buf.value)) else None
  }

  /** The last count: the record goes, and its buffer is left with nobody. */
  lemma RecordGone(s: State, r: nat)
    requires InvWith(s, Some(OfRecord(r))) && r in s.live && s.live[r].refs == 1
    ensures InvWith(s.(live := s.live - {r}), BufferKey(s.live[r].buf))
  {
    hide Holders;
    var t, buf := s.(live := s.live - {r}), s.live[r].buf;
    forall k ensures Holders(t, k) == Holders(s, k) { SameHolders(s, t, k); }
    assert Holders(s, OfRecord(r)) + One(Some(OfRecord(r)), OfRecord(r)) == 1;
    NoFrameHolds(s, OfRecord(r));
    assert buf.Some? ==> RecordOwns(s, Some(OfRecord(r)), r, buf.value);
    assert Balanced(t, BufferKey(buf));
    forall q | q in t.live && t.live[q].buf.Some? ensures RecordOwns(t, BufferKey(buf), q, t.live[q].buf.value) {
      assert RecordOwns(s, Some(OfRecord(r)), q, s.live[q].buf.value);
    }
    forall x: nat | x in t.out && Holders(t, OfBuffer(x)) + One(BufferKey(buf), OfBuffer(x)) == 0
      ensures HasRecord(t, x) {
      assert HasRecord(s, x);
      var q :| q in s.live && s.live[q].buf == Some(x);
      assert q != r;
    }
    forall p, f | f in At(t, p) ensures GoodFrame(t, f) {
      assert f in At(s, p) && GoodFrame(s, f);
      assert KeyOf(f) != Some(OfRecord(r));
    }
  }

  /** A new record takes over its buffer. */
  lemma RecordMade(s: State, r: nat, buf: Option<nat>, data: seq<byte>)
    requires InvWith(s, BufferKey(buf)) && r !in s.live
    requires buf.Some? ==> buf.value in s.out && s.out[buf.value] == data
    ensures InvWith(s.(live := s.live[r := Record(buf, 1, data)]), Some(OfRecord(r)))
  {
    hide Holders;
    var t := s.(live := s.live[r := Record(buf, 1, data)]);
    forall k ensures Holders(t, k) == Holders(s, k) { SameHolders(s, t, k); }
    assert Balanced(t, Some(OfRecord(r)));
    assert buf.Some? ==> Holders(s, OfBuffer(buf.value)) + One(BufferKey(buf), OfBuffer(buf.value)) == 1;
    forall q | q in t.live && t.live[q].buf.Some? ensures RecordOwns(t, Some(OfRecord(r)), q, t.live[q].buf.value) {
      if q != r {
        assert RecordOwns(s, BufferKey(buf), q, s.live[q].buf.value);
      } else {
        forall o | o in s.live && s.live[o].buf.Some? ensures s.live[o].buf != buf {
          assert RecordOwns(s, BufferKey(buf), o, s.live[o].buf.value);
        }
      }
    }
    forall x: nat | x in t.out && Holders(t, OfBuffer(x)) + One(Some(OfRecord(r)), OfBuffer(x)) == 0
      ensures HasRecord(t, x) {
      if buf == Some(x) {
        assert t.live[r].buf == Some(x);
      } else {
        assert HasRecord(s, x);
        var q :| q in s.live && s.live[q].buf == Some(x);
        assert q in t.live && t.live[q].buf == Some(x);
      }
    }
    forall p, f | f in At(t, p) ensures GoodFrame(t, f) {
      assert f in At(s, p) && GoodFrame(s, f);
    }
  }

  /** The allocator hands out a buffer nobody has, and its bytes are written. */
  lemma BufferTaken(s: State, b: nat, data: seq<byte>)
    requires Inv(s) && b !in s.out
    ensures InvWith(s.(out := s.out[b := data]), Some(OfBuffer(b)))
  {
    hide Holders;
    var t := s.(out := s.out[b := data]);
    forall k ensures Holders(t, k) == Holders(s, k) { SameHolders(s, t, k); }
    assert Balanced(t, Some(OfBuffer(b)));
    forall q | q in t.live && t.live[q].buf.Some? ensures RecordOwns(t, Some(OfBuffer(b)), q, t.live[q].buf.value) {
      assert RecordOwns(s, None, q, s.live[q].buf.value);
    }
    forall x: nat | x in t.out && Holders(t, OfBuffer(x)) + One(Some(OfBuffer(b)), OfBuffer(x)) == 0
      ensures HasRecord(t, x) {
      assert HasRecord(s, x);
    }
    forall p, f | f in At(t, p) ensures GoodFrame(t, f) {
      assert f in At(s, p) && GoodFrame(s, f);
    }
  }

  lemma ReleaseKeeps(s: State, r: nat)
    requires InvWith(s, Some(OfRecord(r)))
    ensures Inv(Release(s, r))
  {
    assert Holders(s, OfRecord(r)) + One(Some(OfRecord(r)), OfRecord(r)) >= 1;
    hide Holders, BuffersOwned, FramesGood;
    if s.live[r].refs > 1 {
      ReleaseOneOfMany(s, r);
    } else {
      RecordGone(s, r);
      if s.live[r].buf.Some? {
        PutBufferKeeps(s.(live := s.live - {r}), s.live[r].buf.value);
      }
    }
  }

  lemma RetainKeeps(s: State, r: nat)
    requires Inv(s) && r in s.live
    ensures InvWith(Retain(s, r), Some(OfRecord(r)))
  {
    hide Holders;
    CountChange(s, Retain(s, r), None, Some(OfRecord(r)));
  }

  lemma ReleaseFrameKeeps(s: State, f: Frame)
    requires InvWith(s, KeyOf(f))
    ensures Inv(ReleaseFrame(s, f))
  {
    hide InvWith, Release, PutBuffer;
    if f.record.Some? {
      ReleaseKeeps(s, f.record.value);
    } else if f.buf.Some? {
      PutBufferKeeps(s, f.buf.value);
    }
  }

  lemma DropKeeps(s: State, p: Place, i: nat)
    requires Inv(s) && i < |At(s, p)|
    ensures Inv(Drop(s, p, i))
  {
    hide InvWith, ReleaseFrame;
    TakeFrame(s, p, i);
    ReleaseFrameKeeps(With(s, p, Remove(At(s, p), i)), At(s, p)[i]);
  }

  lemma MoveKeeps(s: State, p: Place, i: nat, q: Place)
    requires Inv(s) && i < |At(s, p)|
    ensures Inv(Move(s, p, i, q))
  {
    hide InvWith;
    TakeFrame(s, p, i);
    AddFrame(With(s, p, Remove(At(s, p), i)), q, At(s, p)[i]);
  }

  /** Moving record counts between the lists. */
  lemma Relist(s: State, extra: Option<Key>, t: State, extra': Option<Key>)
    requires InvWith(s, extra)
    requires t == s.(unacked := t.unacked, loose := t.loose)
    requires extra.Some? ==> extra.value.OfRecord?
    requires extra'.Some? ==> extra'.value.OfRecord?
    requires forall r: nat ::
      Listed(t.unacked, r) + multiset(t.loose)[r] + One(extra', OfRecord(r))
      == Listed(s.unacked, r) + multiset(s.loose)[r] + One(extra, OfRecord(r))
    ensures InvWith(t, extra')
  {
    forall k ensures Holders(t, k) + One(extra', k) == Holders(s, k) + One(extra, k) {
      if k.OfBuffer? {
        assert One(extra, k) == One(extra', k) == 0;
      } else {
        assert k == OfRecord(k.id);
      }
    }
    hide Holders, Balanced, BuffersOwned;
    forall p, f | f in At(t, p) ensures GoodFrame(t, f) {
      assert f in At(s, p) && GoodFrame(s, f);
    }
    Rebalance(s, extra, t, extra');
  }

  lemma TrackKeeps(s: State, c: nat, r: nat, buf: Option<nat>, data: seq<byte>)
    requires InvWith(s, BufferKey(buf)) && r !in s.live && c < |s.unacked|
    requires buf.Some? ==> buf.value in s.out && s.out[buf.value] == data
    ensures Inv(Track(s, c, r, buf, data))
  {
    hide InvWith;
    var made := s.(live := s.live[r := Record(buf, 1, data)]);
    RecordMade(s, r, buf, data);
    var listed := made.(unacked := s.unacked[c := s.unacked[c] + [r]]);
    forall q: nat ensures Listed(listed.unacked, q) == Listed(made.unacked, q) + One(Some(OfRecord(r)), OfRecord(q)) {
      ListedUpdate(s.unacked, c, s.unacked[c] + [r], q);
    }
    Relist(made, Some(OfRecord(r)), listed, None);
    RetainKeeps(listed, r);
    var kept := Retain(listed, r);
    assert kept.live == s.live[r := Record(buf, 2, data)];
    AddFrame(kept, Hands, Frame(buf, Some(r), data));
  }

  lemma UnackedIsLive(s: State, c: nat, k: nat)
    requires Inv(s) && c < |s.unacked| && k < |s.unacked[c]|
    ensures s.unacked[c][k] in s.live
  {
    var r := s.unacked[c][k];
    ListedUpdate(s.unacked, c, [], r);
    assert r in multiset(s.unacked[c]);
    assert Holders(s, OfRecord(r)) > 0;
    hide Holders;
  }

  lemma LooseIsLive(s: State, j: nat)
    requires Inv(s) && j < |s.loose|
    ensures s.loose[j] in s.live
  {
    assert s.loose[j] in multiset(s.loose);
    assert Holders(s, OfRecord(s.loose[j])) > 0;
    hide Holders;
  }

  lemma LooseAdded(s: State, r: nat)
    requires InvWith(s, Some(OfRecord(r)))
    ensures Inv(s.(loose := s.loose + [r]))
  {
    hide InvWith, Holders, Listed;
    forall q: nat ensures multiset(s.loose + [r])[q] == multiset(s.loose)[q] + One(Some(OfRecord(r)), OfRecord(q)) {
    }
    Relist(s, Some(OfRecord(r)), s.(loose := s.loose + [r]), None);
  }

  lemma RetainLooseKeeps(s: State, r: nat)
    requires Inv(s) && r in s.live
    ensures Inv(Retain(s.(loose := s.loose + [r]), r))
  {
    hide InvWith;
    RetainKeeps(s, r);
    LooseAdded(Retain(s, r), r);
    assert Retain(s.(loose := s.loose + [r]), r) == Retain(s, r).(loose := s.loose + [r]);
  }

  lemma LooseTaken(s: State, j: nat)
    requires Inv(s) && j < |s.loose|
    ensures InvWith(s.(loose := Remove(s.loose, j)), Some(OfRecord(s.loose[j])))
  {
    RemoveCounts(s.loose, j);
    hide InvWith, Remove;
    Relist(s, None, s.(loose := Remove(s.loose, j)), Some(OfRecord(s.loose[j])));
  }

  lemma RetransmitKeeps(s: State, j: nat)
    requires Inv(s) && j < |s.loose|
    ensures Inv(Apply(s, Retransmit(j)))
  {
    LooseIsLive(s, j);
    LooseTaken(s, j);
    hide InvWith;
    var record := s.live[s.loose[j]];
    AddFrame(s.(loose := Remove(s.loose, j)), Hands, Frame(record.buf, Some(s.loose[j]), record.data));
  }

  lemma AcknowledgeKeeps(s: State, c: nat)
    requires Inv(s) && c < |s.unacked| && s.unacked[c] != []
    ensures Inv(Apply(s, Acknowledge(c)))
  {
    hide InvWith, Release;
    var r := s.unacked[c][0];
    var t := s.(unacked := s.unacked[c := s.unacked[c][1..]]);
    assert s.unacked[c] == [r] + s.unacked[c][1..];
    forall q: nat ensures Listed(t.unacked, q) + One(Some(OfRecord(r)), OfRecord(q)) == Listed(s.unacked, q) {
      ListedUpdate(s.unacked, c, s.unacked[c][1..], q);
    }
    Relist(s, None, t, Some(OfRecord(r)));
    ReleaseKeeps(t, r);
  }

  lemma CleanupKeeps(s: State, c: nat)
    requires Inv(s) && c < |s.unacked|
    ensures Inv(Apply(s, Cleanup(c)))
  {
    hide InvWith;
    forall q: nat ensures Listed(s.unacked[c := []], q) == Listed(s.unacked, q) - multiset(s.unacked[c])[q] {
      ListedUpdate(s.unacked, c, [], q);
    }
    Relist(s, None, Apply(s, Cleanup(c)), None);
  }

  lemma PutKeeps(s: State, i: nat)
    requires Inv(s) && i < |s.batch|
    ensures Apply(s, Put(i)) == s
  {
    var f := s.batch[i];
    assert f in At(s, Batch) && GoodFrame(s, f);
    if f.record.Some? {
      var r := f.record.value;
      assert s.live[r].buf.Some? ==> RecordOwns(s, None, r, s.live[r].buf.value);
    }
  }

  /** Every step keeps the books. */
  lemma StepKeeps(s: State, step: Step)
    requires Inv(s) && Enabled(s, step)
    ensures Inv(Apply(s, step))
  {
    hide InvWith, Track, Drop, Move, Release, Retain, Add;
    match step
    case WriteReliable(c, r, b, data) =>
      BufferTaken(s, b, data);
      TrackKeeps(s.(out := s.out[b := data]), c, r, Some(b), data);
    case WriteRaw(b, data) =>
      BufferTaken(s, b, data);
      AddFrame(s.(out := s.out[b := data]), Hands, Frame(Some(b), None, data));
    case SendFin(c, r) => TrackKeeps(s, c, r, None, []);
    case SendControl => AddFrame(s, Hands, Frame(None, None, []));
    case Enqueue(i) => MoveKeeps(s, Hands, i, Writes);
    case EnqueueControl(i) => MoveKeeps(s, Hands, i, Control);
    case EnqueueFails(i) => DropKeeps(s, Hands, i);
    case Collect(control) => MoveKeeps(s, if control then Control else Writes, 0, Batch);
    case Put(i) => PutKeeps(s, i);
    case ReleaseBatch(i) => DropKeeps(s, Batch, i);
    case Drain(control) => DropKeeps(s, if control then Control else Writes, 0);
    case RetainUnacked(c, k) =>
      UnackedIsLive(s, c, k);
      RetainLooseKeeps(s, s.unacked[c][k]);
    case Retransmit(j) => RetransmitKeeps(s, j);
    case GiveBack(j) =>
      LooseTaken(s, j);
      ReleaseKeeps(s.(loose := Remove(s.loose, j)), s.loose[j]);
    case Acknowledge(c) => AcknowledgeKeeps(s, c);
    case Cleanup(c) => CleanupKeeps(s, c);
  }

  lemma {:induction false} RunKeeps(s: State, steps: seq<Step>, t: State)
    requires Inv(s) && Runs(s, steps, t)
    ensures Inv(t)
    decreases |steps|
  {
    hide Inv, Apply, Enabled;
    if steps != [] {
      StepKeeps(s, steps[0]);
      RunKeeps(Apply(s, steps[0]), steps[1..], t);
    }
  }

  predicate AllEmpty(lists: seq<seq<nat>>) {
    forall c :: 0 <= c < |lists| ==> lists[c] == []
  }

  lemma {:induction false} NothingListed(lists: seq<seq<nat>>, r: nat)
    requires AllEmpty(lists)
    ensures Listed(lists, r) == 0
  {
    if lists != [] {
      NothingListed(lists[1..], r);
    }
  }

  lemma NoHolders(s: State, k: Key)
    requires AllEmpty(s.unacked) && s.loose == []
    requires s.hands == s.writes == s.control == s.batch == []
    ensures Holders(s, k) == 0
  {
    NothingListed(s.unacked, k.id);
  }

  lemma NewStateInv(channels: nat)
    ensures Inv(NewState(channels))
  {
    var s := NewState(channels);
    forall k ensures Holders(s, k) == 0 { NoHolders(s, k); }
    hide Holders;
  }

  /**
   Under every interleaving, a record's count is the number of its holders; it is never
   released below zero, no buffer is returned twice, and no frame writes a buffer that has
   gone back to the allocator or been reused.
   */
  lemma CountsAreHolders(channels: nat, steps: seq<Step>, s: State)
    requires Runs(NewState(channels), steps, s)
    ensures !s.fault
    ensures forall r :: r in s.live ==> s.live[r].refs == Holders(s, OfRecord(r)) > 0
    ensures forall r: nat :: r !in s.live ==> Holders(s, OfRecord(r)) == 0
  {
    NewStateInv(channels);
    RunKeeps(NewState(channels), steps, s);
    hide Holders;
  }

  /** A frame anywhere still reads, from a buffer that is out, the bytes the sender put there. */
  lemma FramesReadWhatWasWritten(channels: nat, steps: seq<Step>, s: State, p: Place, i: nat)
    requires Runs(NewState(channels), steps, s)
    requires i < |At(s, p)| && At(s, p)[i].buf.Some?
    ensures var f := At(s, p)[i]; f.buf.value in s.out && s.out[f.buf.value] == f.data
  {
    NewStateInv(channels);
    RunKeeps(NewState(channels), steps, s);
    hide Holders;
    var f := At(s, p)[i];
    assert f in At(s, p) && GoodFrame(s, f);
    if f.record.Some? {
      assert RecordOwns(s, None, f.record.value, f.buf.value);
    }
  }

  /** When no list and no frame is left, every record and every buffer has gone back. */
  lemma NothingLeaks(channels: nat, steps: seq<Step>, s: State)
    requires Runs(NewState(channels), steps, s)
    requires AllEmpty(s.unacked) && s.loose == []
    requires s.hands == s.writes == s.control == s.batch == []
    ensures s.live == map[] && s.out == map[]
  {
    NewStateInv(channels);
    RunKeeps(NewState(channels), steps, s);
    forall k ensures Holders(s, k) == 0 { NoHolders(s, k); }
    hide Holders;
    forall r: nat ensures r !in s.live {
      assert Holders(s, OfRecord(r)) + One(None, OfRecord(r)) == 0;
    }
    forall b: nat ensures b !in s.out {
      assert !HasRecord(s, b);
    }
  }
}
