/**
 Batch compaction: the writer goroutine resolves the control frames of a batch and
 merges them in place, one ACK and one window update per channel, before it writes
 (write_scheduler.go). Proved to leave the peer in the same state.
 */
module Compaction {
  import opened Bytes
  import opened WriteFrames
  import Arq

  const TwoTo32 := 0x1_0000_0000
  const TwoTo31 := 0x8000_0000

  // ---------- specification ----------

  /** The frame as it will be sent, given what its look-up saw; an update without credit is dropped. */
  function Resolve(f: WriteFrame, seen: nat): Option<WriteFrame> {
    match f.control
    case Fixed => Some(f)
    case AckOf => Some(f.(offset := seen))
    case CreditOf => if seen == 0 then None else Some(f.(length := seen))
  }

  function ResolveAll(fs: seq<WriteFrame>, seen: seq<nat>): seq<WriteFrame>
    requires |fs| == |seen|
  {
    if fs == [] then []
    else
      var n := |fs| - 1;
      var r := Resolve(fs[n], seen[n]);
      ResolveAll(fs[..n], seen[..n]) + if r.Some? then [r.value] else []
  }

  predicate Mergeable(f: WriteFrame) {
    f.flag == ACK || f.flag == UPD
  }

  /** Index of the first frame that `f` can be merged into, or |out|. */
  function Match(out: seq<WriteFrame>, f: WriteFrame, from: nat): (j: nat)
    requires from <= |out|
    ensures from <= j <= |out|
    ensures j < |out| ==> out[j].flag == f.flag && out[j].chID == f.chID
    ensures forall k :: from <= k < j ==> !(out[k].flag == f.flag && out[k].chID == f.chID)
    decreases |out| - from
  {
    if from == |out| || (out[from].flag == f.flag && out[from].chID == f.chID) then from
    else Match(out, f, from + 1)
  }

  function Merge(g: WriteFrame, f: WriteFrame): WriteFrame {
    if f.flag == ACK then (if f.offset > g.offset then g.(offset := f.offset) else g)
    else g.(length := (g.length + f.length) % TwoTo32)
  }

  function Insert(out: seq<WriteFrame>, f: WriteFrame): seq<WriteFrame> {
    var j := Match(out, f, 0);
    if Mergeable(f) && j < |out| then out[j := Merge(out[j], f)] else out + [f]
  }

  function Compacted(fs: seq<WriteFrame>): seq<WriteFrame> {
    if fs == [] then [] else Insert(Compacted(fs[..|fs| - 1]), fs[|fs| - 1])
  }

  /** The compacted front after one more frame. */
  function After(out: seq<WriteFrame>, f: WriteFrame, seen: nat): seq<WriteFrame> {
    var r := Resolve(f, seen);
    if r.None? then out else Insert(out, r.value)
  }

  lemma CompactOneMore(fs: seq<WriteFrame>, seen: seq<nat>, i: nat)
    requires |fs| == |seen| && i < |fs|
    ensures Compacted(ResolveAll(fs[..i + 1], seen[..i + 1]))
         == After(Compacted(ResolveAll(fs[..i], seen[..i])), fs[i], seen[i])
  {
    assert fs[..i + 1][..i] == fs[..i] && seen[..i + 1][..i] == seen[..i];
    var rs, r := ResolveAll(fs[..i], seen[..i]), Resolve(fs[i], seen[i]);
    if r.Some? {
      assert (rs + [r.value])[..|rs|] == rs;
    } else {
      assert rs + [] == rs;
    }
  }

  // ---------- the in-place algorithm ----------

  /** `seen[i]` is what frame i's look-up observed, whatever ran concurrently. */
  method CompactAndResolve(frames: array<WriteFrame>, n: nat, seen: seq<nat>) returns (out: nat)
    requires n <= frames.Length && |seen| == n
    modifies frames
    ensures out <= n
    ensures frames[..out] == Compacted(ResolveAll(old(frames[..n]), seen))
    ensures forall k :: out <= k < n ==> frames[k] == Blank
    ensures frames[n..] == old(frames[n..])
    ensures OnePerChannel(frames[..out])
    ensures forall ch: nat :: AckMax(frames[..out], ch) == AckOwedMax(old(frames[..n]), seen, ch)
    ensures OthersFixed(old(frames[..n])) ==> Others(frames[..out]) == Others(old(frames[..n]))
    ensures (forall ch: nat :: UpdOwedSum(old(frames[..n]), seen, ch) < TwoTo31) ==>
      forall ch: nat :: UpdSum(frames[..out], ch) == UpdOwedSum(old(frames[..n]), seen, ch)
    ensures (forall ch: nat :: UpdOwedSum(old(frames[..n]), seen, ch) < TwoTo31)
      && (forall f <- old(frames[..n]) :: f.flag == UPD && !f.control.CreditOf? ==> f.length > 0)
      ==> Granting(frames[..out])
  {
    hide AckMax, UpdSum, Others, AckOwedMax, UpdOwedSum, OnePerChannel, Granting;
    out := 0;
    ghost var fs := frames[..n];
    for i := 0 to n
      invariant out <= i
      invariant frames[..out] == Compacted(ResolveAll(fs[..i], seen[..i]))
      invariant forall k :: out <= k < i ==> frames[k] == Blank
      invariant frames[i..] == old(frames[i..])
    {
      hide Compacted, ResolveAll, After;
      CompactOneMore(fs, seen, i);
      assert frames[i] == fs[i] by { assert frames[i] == frames[i..][0] == old(frames[i..])[0]; }
      out := HandleSlot(frames, i, out, seen[i]);
      assert frames[i + 1..] == old(frames[i + 1..]);
    }
    assert fs[..n] == fs && seen[..n] == seen;
    CompactedFrom(fs, seen);
  }

  /** Resolve the frame of slot i; drop it, merge it into the compacted front, or move it there. */
  method HandleSlot(frames: array<WriteFrame>, i: nat, front: nat, seen: nat) returns (out: nat)
    requires front <= i < frames.Length
    requires forall k :: front <= k < i ==> frames[k] == Blank
    modifies frames
    ensures front <= out <= i + 1
    ensures frames[..out] == After(old(frames[..front]), old(frames[i]), seen)
    ensures forall k :: out <= k < i + 1 ==> frames[k] == Blank
    ensures frames[i + 1..] == old(frames[i + 1..])
  {
    out := front;
    var r := Resolve(frames[i], seen);
    if r.None? {
      frames[i] := Blank;
      return;
    }
    var f := r.value;
    var merged := false;
    if Mergeable(f) {
      var j := 0;
      while j < front && !(frames[j].flag == f.flag && frames[j].chID == f.chID)
        invariant j <= front
        invariant Match(frames[..front], f, 0) == Match(frames[..front], f, j)
      {
        j := j + 1;
      }
      if j < front {
        frames[j] := Merge(frames[j], f);
        merged := true;
      }
    }
    if merged {
      frames[i] := Blank;
    } else {
      frames[front] := f;
      if front != i {
        frames[i] := Blank;
      }
      out := front + 1;
    }
  }

  // ---------- what the peer makes of a batch ----------

  /** The part of the peer that the frames of a batch act on: send credit per scope
      (0 is the session), retransmission lists and reassembly state per channel. */
  datatype Peer = Peer(credits: map<nat, nat>, unacked: map<nat, seq<Arq.Frame>>, rcv: map<nat, Arq.Receiver>,
                       limit: nat)

  /** The int32 a length is read as; a negative one is ignored. */
  function Delta(length: nat): nat {
    if length < TwoTo31 then length else 0
  }

  function ApplyFrame(p: Peer, f: WriteFrame): Peer {
    if f.flag == UPD then
      if f.chID in p.credits then p.(credits := p.credits[f.chID := p.credits[f.chID] + Delta(f.length)]) else p
    else if f.flag == ACK then
      if f.chID in p.unacked then p.(unacked := p.unacked[f.chID := Arq.DropAcked(p.unacked[f.chID], f.offset)]) else p
    else if f.flag == DATA then
      if f.chID in p.rcv && f.length > 0 && f.payload.Some?
      then p.(rcv := p.rcv[f.chID := Arq.Feed(p.rcv[f.chID], p.limit, f.offset, f.payload.value)]) else p
    else if f.flag == FIN then
      if f.chID in p.rcv then p.(rcv := p.rcv[f.chID := Arq.HandleFin(p.rcv[f.chID], f.offset)]) else p
    else p
  }

  /** What a frame does to reassembly: one delivery of the protocol for DATA and FIN, nothing otherwise. */
  lemma PeerReceives(p: Peer, f: WriteFrame)
    ensures f.flag == DATA && f.chID in p.rcv && f.length > 0 && f.payload.Some? ==>
      var g := Arq.Data(f.offset, f.payload.value);
      ApplyFrame(p, f).rcv == p.rcv[f.chID := Arq.Deliver(p.rcv[f.chID], p.limit, g)]
    ensures f.flag == FIN && f.chID in p.rcv ==>
      ApplyFrame(p, f).rcv == p.rcv[f.chID := Arq.Deliver(p.rcv[f.chID], p.limit, Arq.Fin(f.offset))]
    ensures (f.flag != DATA || f.length == 0) && f.flag != FIN ==> ApplyFrame(p, f).rcv == p.rcv
  {
    hide Arq.Feed, Arq.DropAcked;
  }

  function ApplyAll(p: Peer, fs: seq<WriteFrame>): Peer {
    if fs == [] then p else ApplyFrame(ApplyAll(p, fs[..|fs| - 1]), fs[|fs| - 1])
  }

  /** The credit a batch grants to scope ch. */
  function UpdSum(fs: seq<WriteFrame>, ch: nat): nat {
    if fs == [] then 0
    else UpdSum(fs[..|fs| - 1], ch) + UpdPart(fs[|fs| - 1], ch)
  }

  function UpdPart(f: WriteFrame, ch: nat): nat {
    if f.flag == UPD && f.chID == ch then f.length else 0
  }

  /** The highest offset a batch acknowledges on channel ch, -1 if it acknowledges nothing. */
  function AckMax(fs: seq<WriteFrame>, ch: nat): (a: int)
    ensures a >= -1
  {
    if fs == [] then -1 else Max(AckMax(fs[..|fs| - 1], ch), AckPart(fs[|fs| - 1], ch))
  }

  function AckPart(f: WriteFrame, ch: nat): int {
    if f.flag == ACK && f.chID == ch then f.offset else -1
  }

  /** Everything that is neither an ACK nor a window update, in order. */
  function Others(fs: seq<WriteFrame>): seq<WriteFrame> {
    if fs == [] then [] else Others(fs[..|fs| - 1]) + OtherPart(fs[|fs| - 1])
  }

  function OtherPart(f: WriteFrame): seq<WriteFrame> {
    if Mergeable(f) then [] else [f]
  }

  lemma {:induction false} UpdSumUpdate(fs: seq<WriteFrame>, j: nat, g: WriteFrame, ch: nat)
    requires j < |fs|
    ensures UpdSum(fs[j := g], ch) == UpdSum(fs, ch) - UpdPart(fs[j], ch) + UpdPart(g, ch)
    ensures UpdPart(fs[j], ch) <= UpdSum(fs, ch)
  {
    var n := |fs| - 1;
    if j < n {
      assert fs[j := g][..n] == fs[..n][j := g];
      UpdSumUpdate(fs[..n], j, g, ch);
    } else {
      assert fs[j := g][..n] == fs[..n];
    }
  }

  lemma {:induction false} AckMaxUpdate(fs: seq<WriteFrame>, j: nat, g: WriteFrame, ch: nat)
    requires j < |fs| && AckPart(g, ch) >= AckPart(fs[j], ch)
    ensures AckMax(fs[j := g], ch) == Max(AckMax(fs, ch), AckPart(g, ch))
  {
    var n := |fs| - 1;
    if j < n {
      assert fs[j := g][..n] == fs[..n][j := g];
      AckMaxUpdate(fs[..n], j, g, ch);
    } else {
      assert fs[j := g][..n] == fs[..n];
    }
  }

  lemma {:induction false} OthersUpdate(fs: seq<WriteFrame>, j: nat, g: WriteFrame)
    requires j < |fs| && Mergeable(fs[j]) && Mergeable(g)
    ensures Others(fs[j := g]) == Others(fs)
  {
    var n := |fs| - 1;
    if j < n {
      assert fs[j := g][..n] == fs[..n][j := g];
      OthersUpdate(fs[..n], j, g);
    } else {
      assert fs[j := g][..n] == fs[..n];
    }
  }

  lemma AppendProjects(out: seq<WriteFrame>, f: WriteFrame, ch: nat)
    ensures AckMax(out + [f], ch) == Max(AckMax(out, ch), AckPart(f, ch))
    ensures Others(out + [f]) == Others(out) + OtherPart(f)
    ensures UpdSum(out + [f], ch) == UpdSum(out, ch) + UpdPart(f, ch)
  {
    assert (out + [f])[..|out|] == out;
  }

  /** Adding a frame to the front adds exactly its own acknowledgement, or the frame itself. */
  lemma InsertKeeps(out: seq<WriteFrame>, f: WriteFrame, ch: nat)
    ensures AckMax(Insert(out, f), ch) == Max(AckMax(out, ch), AckPart(f, ch))
    ensures Others(Insert(out, f)) == Others(out) + OtherPart(f)
  {
    hide AckMax, Others;
    var j := Match(out, f, 0);
    if Mergeable(f) && j < |out| {
      var g := Merge(out[j], f);
      AckMaxUpdate(out, j, g, ch);
      OthersUpdate(out, j, g);
      AckMaxAtLeast(out, j, ch);
    } else {
      AppendProjects(out, f, ch);
    }
  }

  /** It adds exactly its own credit as long as the scope's total fits an int32. */
  lemma InsertAdds(out: seq<WriteFrame>, f: WriteFrame, ch: nat)
    requires UpdSum(out, f.chID) + UpdPart(f, f.chID) < TwoTo31
    ensures UpdSum(Insert(out, f), ch) == UpdSum(out, ch) + UpdPart(f, ch)
  {
    hide UpdSum;
    var j := Match(out, f, 0);
    if Mergeable(f) && j < |out| {
      var g := Merge(out[j], f);
      UpdSumUpdate(out, j, g, f.chID);
      UpdSumUpdate(out, j, g, ch);
    } else {
      AppendProjects(out, f, ch);
    }
  }

  lemma {:induction false} AckMaxAtLeast(fs: seq<WriteFrame>, j: nat, ch: nat)
    requires j < |fs|
    ensures AckPart(fs[j], ch) <= AckMax(fs, ch)
  {
    var n := |fs| - 1;
    if j < n {
      AckMaxAtLeast(fs[..n], j, ch);
    }
  }

  /** No scope is granted more than an int32 can hold. */
  ghost predicate Bounded(fs: seq<WriteFrame>) {
    forall ch :: UpdSum(fs, ch) < TwoTo31
  }

  lemma BoundedPrefix(fs: seq<WriteFrame>)
    requires Bounded(fs) && fs != []
    ensures Bounded(fs[..|fs| - 1])
  {
    var shorter := fs[..|fs| - 1];
    forall ch ensures UpdSum(shorter, ch) < TwoTo31 {
      assert UpdSum(fs, ch) < TwoTo31;
    }
  }

  /** Compaction keeps every channel's acknowledgement and all other frames with their order. */
  lemma {:induction false} CompactedKeeps(fs: seq<WriteFrame>, ch: nat)
    ensures AckMax(Compacted(fs), ch) == AckMax(fs, ch)
    ensures Others(Compacted(fs)) == Others(fs)
  {
    if fs != [] {
      var n := |fs| - 1;
      CompactedKeeps(fs[..n], ch);
      InsertKeeps(Compacted(fs[..n]), fs[n], ch);
      hide Insert;
    }
  }

  /** And, within an int32, every scope's credit. */
  lemma {:induction false} CompactedProjects(fs: seq<WriteFrame>, ch: nat)
    requires Bounded(fs)
    ensures UpdSum(Compacted(fs), ch) == UpdSum(fs, ch)
    ensures AckMax(Compacted(fs), ch) == AckMax(fs, ch)
    ensures Others(Compacted(fs)) == Others(fs)
  {
    CompactedKeeps(fs, ch);
    if fs != [] {
      var n := |fs| - 1;
      BoundedPrefix(fs);
      CompactedProjects(fs[..n], ch);
      CompactedProjects(fs[..n], fs[n].chID);
      assert UpdSum(fs, fs[n].chID) < TwoTo31;
      InsertAdds(Compacted(fs[..n]), fs[n], ch);
      hide Insert;
    }
  }

  /** Each channel keeps at most one ACK and one window update. */
  predicate OnePerChannel(fs: seq<WriteFrame>) {
    forall i, j :: 0 <= i < j < |fs| && Mergeable(fs[i]) && fs[i].flag == fs[j].flag ==> fs[i].chID != fs[j].chID
  }

  lemma {:induction false} CompactedOnePerChannel(fs: seq<WriteFrame>)
    ensures OnePerChannel(Compacted(fs))
  {
    if fs != [] {
      CompactedOnePerChannel(fs[..|fs| - 1]);
    }
  }

  // ---------- what the look-ups put on the wire ----------

  /** What frame f acknowledges on ch, given what its look-up saw; -1 if nothing. */
  function AckOwed(f: WriteFrame, seen: nat, ch: nat): int {
    if f.flag != ACK || f.chID != ch then -1
    else
      match f.control
      case Fixed => f.offset
      case AckOf => seen
      case CreditOf => if seen > 0 then f.offset else -1
  }

  /** What frame f grants to scope ch. */
  function UpdOwed(f: WriteFrame, seen: nat, ch: nat): nat {
    if f.flag != UPD || f.chID != ch then 0 else if f.control.CreditOf? then seen else f.length
  }

  function AckOwedMax(fs: seq<WriteFrame>, seen: seq<nat>, ch: nat): int
    requires |fs| == |seen|
  {
    if fs == [] then -1
    else
      var n := |fs| - 1;
      Max(AckOwedMax(fs[..n], seen[..n], ch), AckOwed(fs[n], seen[n], ch))
  }

  function UpdOwedSum(fs: seq<WriteFrame>, seen: seq<nat>, ch: nat): nat
    requires |fs| == |seen|
  {
    if fs == [] then 0
    else
      var n := |fs| - 1;
      UpdOwedSum(fs[..n], seen[..n], ch) + UpdOwed(fs[n], seen[n], ch)
  }

  /** Only acknowledgements and window updates look anything up. */
  predicate OthersFixed(fs: seq<WriteFrame>) {
    forall f <- fs :: !Mergeable(f) ==> f.control.Fixed?
  }

  lemma LastResolved(fs: seq<WriteFrame>, seen: seq<nat>)
    requires |fs| == |seen| > 0
    ensures var n := |fs| - 1;
      var rs, r, all := ResolveAll(fs[..n], seen[..n]), Resolve(fs[n], seen[n]), ResolveAll(fs, seen);
      if r.Some? then all != [] && all[..|all| - 1] == rs && all[|all| - 1] == r.value else all == rs
  {
  }

  lemma LastProjects(all: seq<WriteFrame>, ch: nat)
    requires all != []
    ensures AckMax(all, ch) == Max(AckMax(all[..|all| - 1], ch), AckPart(all[|all| - 1], ch))
    ensures UpdSum(all, ch) == UpdSum(all[..|all| - 1], ch) + UpdPart(all[|all| - 1], ch)
    ensures Others(all) == Others(all[..|all| - 1]) + OtherPart(all[|all| - 1])
  {
  }

  lemma LastOwed(fs: seq<WriteFrame>, seen: seq<nat>, ch: nat)
    requires |fs| == |seen| > 0
    ensures var n := |fs| - 1;
      && AckOwedMax(fs, seen, ch) == Max(AckOwedMax(fs[..n], seen[..n], ch), AckOwed(fs[n], seen[n], ch))
      && UpdOwedSum(fs, seen, ch) == UpdOwedSum(fs[..n], seen[..n], ch) + UpdOwed(fs[n], seen[n], ch)
  {
  }

  lemma NothingOwed(ch: nat)
    ensures AckMax([], ch) == AckOwedMax([], [], ch) == -1 && UpdSum([], ch) == UpdOwedSum([], [], ch) == 0
    ensures Others([]) == [] && ResolveAll([], []) == []
  {
  }

  lemma {:induction false} ResolvedProjects(fs: seq<WriteFrame>, seen: seq<nat>, ch: nat)
    requires |fs| == |seen|
    ensures AckMax(ResolveAll(fs, seen), ch) == AckOwedMax(fs, seen, ch)
    ensures UpdSum(ResolveAll(fs, seen), ch) == UpdOwedSum(fs, seen, ch)
    ensures OthersFixed(fs) ==> Others(ResolveAll(fs, seen)) == Others(fs)
  {
    hide AckMax, UpdSum, Others, AckOwedMax, UpdOwedSum, ResolveAll;
    if fs == [] {
      NothingOwed(ch);
    } else {
      var n := |fs| - 1;
      ResolvedProjects(fs[..n], seen[..n], ch);
      LastResolved(fs, seen);
      LastOwed(fs, seen, ch);
      LastProjects(fs, ch);
      if Resolve(fs[n], seen[n]).Some? {
        LastProjects(ResolveAll(fs, seen), ch);
      }
    }
  }

  /** Every window update in the list grants something. */
  predicate Granting(fs: seq<WriteFrame>) {
    forall f <- fs :: f.flag == UPD ==> f.length > 0
  }

  lemma {:induction false} ResolvedGrants(fs: seq<WriteFrame>, seen: seq<nat>)
    requires |fs| == |seen| && forall f <- fs :: f.flag == UPD && !f.control.CreditOf? ==> f.length > 0
    ensures Granting(ResolveAll(fs, seen))
  {
    if fs != [] {
      ResolvedGrants(fs[..|fs| - 1], seen[..|fs| - 1]);
    }
  }

  lemma {:induction false} CompactedGrants(fs: seq<WriteFrame>)
    requires Bounded(fs) && Granting(fs)
    ensures Granting(Compacted(fs))
  {
    if fs != [] {
      var n := |fs| - 1;
      BoundedPrefix(fs);
      CompactedGrants(fs[..n]);
      CompactedProjects(fs[..n], fs[n].chID);
      assert UpdSum(fs, fs[n].chID) < TwoTo31;
      InsertGrants(Compacted(fs[..n]), fs[n]);
    }
  }

  lemma InsertGrants(out: seq<WriteFrame>, f: WriteFrame)
    requires Granting(out) && Granting([f]) && UpdSum(out, f.chID) + UpdPart(f, f.chID) < TwoTo31
    ensures Granting(Insert(out, f))
  {
    assert f in [f];
    var j := Match(out, f, 0);
    if Mergeable(f) && j < |out| {
      UpdSumUpdate(out, j, out[j], f.chID);
    }
  }

  /**
   The compacted batch in terms of the frames queued and what their look-ups saw: per channel the highest
   offset stored, per scope all the credit found, no update without credit, every other frame as it was.
   */
  lemma CompactedFrom(fs: seq<WriteFrame>, seen: seq<nat>)
    requires |fs| == |seen|
    ensures var out := Compacted(ResolveAll(fs, seen));
      && OnePerChannel(out)
      && (forall ch: nat :: AckMax(out, ch) == AckOwedMax(fs, seen, ch))
      && (OthersFixed(fs) ==> Others(out) == Others(fs))
      && ((forall ch: nat :: UpdOwedSum(fs, seen, ch) < TwoTo31) ==>
            && (forall ch: nat :: UpdSum(out, ch) == UpdOwedSum(fs, seen, ch))
            && ((forall f <- fs :: f.flag == UPD && !f.control.CreditOf? ==> f.length > 0) ==> Granting(out)))
  {
    var rs := ResolveAll(fs, seen);
    hide ResolveAll, Compacted, AckMax, UpdSum, Others, AckOwedMax, UpdOwedSum;
    CompactedOnePerChannel(rs);
    forall ch: nat
      ensures AckMax(Compacted(rs), ch) == AckOwedMax(fs, seen, ch) && UpdSum(rs, ch) == UpdOwedSum(fs, seen, ch)
    {
      ResolvedProjects(fs, seen, ch);
      CompactedKeeps(rs, ch);
    }
    ResolvedProjects(fs, seen, 0);
    CompactedKeeps(rs, 0);
    if forall ch: nat :: UpdOwedSum(fs, seen, ch) < TwoTo31 {
      assert Bounded(rs);
      forall ch: nat ensures UpdSum(Compacted(rs), ch) == UpdOwedSum(fs, seen, ch) {
        CompactedProjects(rs, ch);
      }
      if forall f <- fs :: f.flag == UPD && !f.control.CreditOf? ==> f.length > 0 {
        ResolvedGrants(fs, seen);
        CompactedGrants(rs);
      }
    }
  }

  // ---------- the peer cannot tell ----------

  lemma {:induction false} SmallParts(fs: seq<WriteFrame>)
    requires Bounded(fs)
    ensures forall f <- fs :: f.flag == UPD ==> f.length < TwoTo31
  {
    if fs != [] {
      BoundedPrefix(fs);
      SmallParts(fs[..|fs| - 1]);
      assert UpdSum(fs, fs[|fs| - 1].chID) < TwoTo31;
      assert fs == fs[..|fs| - 1] + [fs[|fs| - 1]];
    }
  }

  /** What a batch does to the peer depends only on its credit sums, its highest
      acknowledgements and its other frames. */
  lemma {:induction false} CreditsAfter(p: Peer, fs: seq<WriteFrame>)
    requires forall f <- fs :: f.flag == UPD ==> f.length < TwoTo31
    ensures ApplyAll(p, fs).credits.Keys == p.credits.Keys
    ensures forall ch <- p.credits :: ApplyAll(p, fs).credits[ch] == p.credits[ch] + UpdSum(fs, ch)
  {
    if fs != [] {
      CreditsAfter(p, fs[..|fs| - 1]);
    }
  }

  lemma UnackedStep(p: Peer, f: WriteFrame)
    ensures ApplyFrame(p, f).unacked.Keys == p.unacked.Keys
    ensures forall ch <- p.unacked :: ApplyFrame(p, f).unacked[ch] == Arq.DropAcked(p.unacked[ch], AckPart(f, ch))
  {
    hide Arq.Feed, Arq.HandleFin;
  }

  lemma {:induction false} UnackedAfter(p: Peer, fs: seq<WriteFrame>)
    ensures ApplyAll(p, fs).unacked.Keys == p.unacked.Keys
    ensures forall ch <- p.unacked :: ApplyAll(p, fs).unacked[ch] == Arq.DropAcked(p.unacked[ch], AckMax(fs, ch))
  {
    if fs != [] {
      hide Arq.DropAcked, ApplyFrame;
      var n := |fs| - 1;
      UnackedAfter(p, fs[..n]);
      UnackedStep(ApplyAll(p, fs[..n]), fs[n]);
      forall ch | ch in p.unacked
        ensures ApplyAll(p, fs).unacked[ch] == Arq.DropAcked(p.unacked[ch], AckMax(fs, ch))
      {
        Arq.DropAckedTwice(p.unacked[ch], AckMax(fs[..n], ch), AckPart(fs[n], ch));
      }
    }
  }

  /** A frame's effect on reassembly depends only on reassembly; merged kinds have none. */
  lemma ReassemblyOnly(p: Peer, q: Peer, f: WriteFrame)
    requires p.rcv == q.rcv && p.limit == q.limit
    ensures ApplyFrame(p, f).rcv == ApplyFrame(q, f).rcv
    ensures ApplyFrame(p, f).limit == p.limit
    ensures Mergeable(f) ==> ApplyFrame(p, f).rcv == p.rcv
  {
    hide Arq.Feed, Arq.DropAcked;
  }

  lemma {:induction false} ReassemblyAfter(p: Peer, fs: seq<WriteFrame>)
    ensures ApplyAll(p, fs).rcv == ApplyAll(p, Others(fs)).rcv && ApplyAll(p, fs).limit == p.limit
    ensures ApplyAll(p, Others(fs)).limit == p.limit
  {
    hide ApplyFrame;
    if fs != [] {
      var n := |fs| - 1;
      ReassemblyAfter(p, fs[..n]);
      var o := Others(fs[..n]);
      ReassemblyOnly(ApplyAll(p, fs[..n]), ApplyAll(p, o), fs[n]);
      ReassemblyOnly(ApplyAll(p, o), ApplyAll(p, fs[..n]), fs[n]);
      if Mergeable(fs[n]) {
        assert o + [] == o;
      } else {
        assert (o + [fs[n]])[..|o|] == o;
      }
    }
  }

  lemma SameCredits(p: Peer, a: seq<WriteFrame>, b: seq<WriteFrame>)
    requires Bounded(a) && forall ch: nat :: UpdSum(a, ch) == UpdSum(b, ch)
    ensures ApplyAll(p, a).credits == ApplyAll(p, b).credits
  {
    assert Bounded(b);
    SmallParts(a);
    SmallParts(b);
    CreditsAfter(p, a);
    CreditsAfter(p, b);
    hide ApplyAll, UpdSum;
  }

  lemma SameUnacked(p: Peer, a: seq<WriteFrame>, b: seq<WriteFrame>)
    requires forall ch: nat :: AckMax(a, ch) == AckMax(b, ch)
    ensures ApplyAll(p, a).unacked == ApplyAll(p, b).unacked
  {
    UnackedAfter(p, a);
    UnackedAfter(p, b);
    hide ApplyAll, AckMax, Arq.DropAcked;
  }

  lemma SameReassembly(p: Peer, a: seq<WriteFrame>, b: seq<WriteFrame>)
    requires Others(a) == Others(b)
    ensures ApplyAll(p, a).rcv == ApplyAll(p, b).rcv && ApplyAll(p, a).limit == ApplyAll(p, b).limit
  {
    ReassemblyAfter(p, a);
    ReassemblyAfter(p, b);
    hide ApplyAll, Others;
  }

  /** In-place compaction preserves meaning: the peer ends in the same state as if the
      resolved batch had been sent frame by frame. */
  lemma CompactionPreservesMeaning(p: Peer, fs: seq<WriteFrame>)
    requires Bounded(fs)
    ensures ApplyAll(p, Compacted(fs)) == ApplyAll(p, fs)
  {
    hide ApplyAll, UpdSum, AckMax, Others, Compacted, Bounded;
    var c := Compacted(fs);
    forall ch: nat ensures UpdSum(fs, ch) == UpdSum(c, ch) && AckMax(fs, ch) == AckMax(c, ch) {
      CompactedProjects(fs, ch);
    }
    CompactedProjects(fs, 0);
    SameCredits(p, fs, c);
    SameUnacked(p, fs, c);
    SameReassembly(p, fs, c);
  }

  // ---------- exactly when ----------

  predicate Grants(fs: seq<WriteFrame>, ch: nat) {
    exists i :: 0 <= i < |fs| && fs[i].flag == UPD && fs[i].chID == ch
  }

  /** One window update is read as an int32, so it grants less than 2^31. */
  lemma {:induction false} GrantedAtMost(p: Peer, fs: seq<WriteFrame>, ch: nat)
    requires OnePerChannel(fs) && ch in p.credits
    ensures ch in ApplyAll(p, fs).credits
    ensures ApplyAll(p, fs).credits[ch] <= p.credits[ch] + if Grants(fs, ch) then TwoTo31 - 1 else 0
  {
    hide Arq.Feed, Arq.DropAcked;
    if fs != [] {
      var n := |fs| - 1;
      GrantedAtMost(p, fs[..n], ch);
      if fs[n].flag == UPD && fs[n].chID == ch {
        assert !Grants(fs[..n], ch);
      } else if Grants(fs[..n], ch) {
        var i :| 0 <= i < n && fs[..n][i].flag == UPD && fs[..n][i].chID == ch;
        assert fs[i].flag == UPD && fs[i].chID == ch;
      }
    }
  }

  /** Whatever the credit counters held, a resolved update carries a positive int32. */
  predicate Resolved(fs: seq<WriteFrame>) {
    forall f <- fs :: f.flag == UPD ==> f.length < TwoTo31
  }

  /** Compaction preserves meaning for every peer exactly when no scope's updates add up to 2^31. */
  lemma MeaningPreservedIff(fs: seq<WriteFrame>)
    requires Resolved(fs)
    ensures (forall p: Peer :: ApplyAll(p, Compacted(fs)) == ApplyAll(p, fs)) <==> Bounded(fs)
  {
    if Bounded(fs) {
      forall p: Peer ensures ApplyAll(p, Compacted(fs)) == ApplyAll(p, fs) {
        CompactionPreservesMeaning(p, fs);
      }
    } else {
      var ch: nat :| UpdSum(fs, ch) >= TwoTo31;
      var p := Peer(map[ch := 0], map[], map[], 0);
      CreditsAfter(p, fs);
      CompactedOnePerChannel(fs);
      GrantedAtMost(p, Compacted(fs), ch);
      assert ApplyAll(p, Compacted(fs)) != ApplyAll(p, fs);
    }
  }
}
