/**
 Frames on the wire: the 17-byte header, datagram packing, and the two parsers,
 one for byte streams and one for datagrams (write_scheduler.go, session.go).
 */
module Framing {
  import opened Bytes
  import opened WriteFrames

  const HeaderLen := 17
  const MaxAllocSize := 262144

  // ---------- big-endian numbers ----------

  function Pow256(k: nat): nat {
    if k == 0 then 1 else 256 * Pow256(k - 1)
  }

  function PutUint(k: nat, v: nat): (s: seq<byte>)
    ensures |s| == k
  {
    if k == 0 then [] else PutUint(k - 1, v / 256) + [v % 256]
  }

  function Uint(s: seq<byte>): nat {
    if s == [] then 0 else 256 * Uint(s[..|s| - 1]) + s[|s| - 1]
  }

  lemma {:induction false} UintRoundTrip(k: nat, v: nat)
    requires v < Pow256(k)
    ensures Uint(PutUint(k, v)) == v
  {
    if k > 0 {
      UintRoundTrip(k - 1, v / 256);
      var s := PutUint(k - 1, v / 256);
      assert (s + [v % 256])[..|s + [v % 256]| - 1] == s;
    }
  }

  /** A number without its last k bytes. */
  function Shifted(v: nat, k: nat): nat {
    if k == 0 then v else Shifted(v / 256, k - 1)
  }

  /** The most significant byte comes first: byte i of k is what is left without the k - 1 - i bytes behind it. */
  lemma {:induction false} BigEndian(k: nat, v: nat, i: nat)
    requires i < k
    ensures PutUint(k, v)[i] == Shifted(v, k - 1 - i) % 256
  {
    if i < k - 1 {
      BigEndian(k - 1, v / 256, i);
    }
  }

  // ---------- encoding ----------

  function Payload(f: WriteFrame): seq<byte> {
    if f.length > 0 && f.payload.Some? then f.payload.value else []
  }

  function Header(f: WriteFrame): (h: seq<byte>)
    ensures |h| == HeaderLen
  {
    PutUint(4, f.length) + [f.flag] + PutUint(4, f.chID) + PutUint(8, f.offset)
  }

  /** The header's layout: length, flag, channel and offset, each number big-endian. */
  lemma HeaderLayout(f: WriteFrame, i: nat)
    requires i < HeaderLen
    ensures i < 4 ==> Header(f)[i] == Shifted(f.length, 3 - i) % 256
    ensures i == 4 ==> Header(f)[i] == f.flag
    ensures 5 <= i < 9 ==> Header(f)[i] == Shifted(f.chID, 8 - i) % 256
    ensures 9 <= i ==> Header(f)[i] == Shifted(f.offset, 16 - i) % 256
  {
    hide PutUint, Pow256;
    if i < 4 {
      BigEndian(4, f.length, i);
    } else if 5 <= i < 9 {
      BigEndian(4, f.chID, i - 5);
    } else if 9 <= i {
      BigEndian(8, f.offset, i - 9);
    }
  }

  function Encode(f: WriteFrame): seq<byte> {
    Header(f) + Payload(f)
  }

  function EncodeAll(fs: seq<WriteFrame>): seq<byte> {
    if fs == [] then [] else Encode(fs[0]) + EncodeAll(fs[1..])
  }

  lemma {:induction false} EncodeAllConcat(a: seq<WriteFrame>, b: seq<WriteFrame>)
    ensures EncodeAll(a + b) == EncodeAll(a) + EncodeAll(b)
  {
    if a == [] {
      assert a + b == b;
    } else {
      assert (a + b)[1..] == a[1..] + b;
      EncodeAllConcat(a[1..], b);
    }
  }

  lemma EncodeAllSnoc(a: seq<WriteFrame>, f: WriteFrame)
    ensures EncodeAll(a + [f]) == EncodeAll(a) + Encode(f)
  {
    EncodeAllConcat(a, [f]);
    assert [f][1..] == [];
    assert EncodeAll([f]) == Encode(f);
  }

  // ---------- datagram packing ----------

  /** Datagram k holds the frames from cuts[k] up to cuts[k+1], whole and in order. */
  ghost predicate Packed(datagrams: seq<seq<byte>>, cuts: seq<nat>, fs: seq<WriteFrame>) {
    && |cuts| == |datagrams| + 1 && cuts[0] == 0
    && (forall k {:trigger datagrams[k]} :: 0 <= k < |datagrams| ==>
          cuts[k] < cuts[k + 1] <= |fs| && datagrams[k] == EncodeAll(fs[cuts[k]..cuts[k + 1]]))
  }

  /** No datagram exceeds the limit, except one that carries a single oversized frame. */
  ghost predicate Fitting(datagrams: seq<seq<byte>>, cuts: seq<nat>, max: nat) {
    |cuts| == |datagrams| + 1
    && forall k :: 0 <= k < |datagrams| ==> |datagrams[k]| <= max || cuts[k + 1] == cuts[k] + 1
  }

  /** No datagram is sent while the next frame still fits. */
  ghost predicate Tight(datagrams: seq<seq<byte>>, cuts: seq<nat>, fs: seq<WriteFrame>, max: nat) {
    |cuts| == |datagrams| + 1
    && forall k :: 0 < k < |datagrams| ==> cuts[k] < |fs| && |datagrams[k - 1]| + |Encode(fs[cuts[k]])| > max
  }

  function Limit(max: int): nat {
    if max < HeaderLen then HeaderLen else max
  }

  /** Frames before i are in `datagrams`, the last of them in `buf`. */
  ghost predicate Progress(datagrams: seq<seq<byte>>, cuts: seq<nat>, buf: seq<byte>, fs: seq<WriteFrame>, i: nat,
                           limit: nat) {
    && Packed(datagrams, cuts, fs) && Fitting(datagrams, cuts, limit)
    && cuts[|cuts| - 1] <= i <= |fs|
    && buf == EncodeAll(fs[cuts[|cuts| - 1]..i]) && |buf| <= limit
    && (buf == [] ==> cuts[|cuts| - 1] == i)
    && Flatten(datagrams) + buf == EncodeAll(fs[..i])
  }

  method FlushDatagrams(frames: seq<WriteFrame>, max: int) returns (datagrams: seq<seq<byte>>, ghost cuts: seq<nat>)
    ensures Packed(datagrams, cuts, frames) && cuts[|cuts| - 1] == |frames|
    ensures Fitting(datagrams, cuts, Limit(max)) && Tight(datagrams, cuts, frames, Limit(max))
    ensures Flatten(datagrams) == EncodeAll(frames)
  {
    hide EncodeAll, Flatten, Progress, Encode, Snug, Full;
    var limit := Limit(max);
    var buf := [];
    datagrams, cuts := [], [0];
    NoProgress(frames, limit);
    NothingSnug(frames, limit);
    for i := 0 to |frames|
      invariant Progress(datagrams, cuts, buf, frames, i, limit) && Snug(datagrams, cuts, buf, frames, limit)
    {
      var need := HeaderLen + |Payload(frames[i])|;
      EncodedLength(frames[i]);
      SnugIsFull(datagrams, cuts, buf, frames, i, limit);
      if |buf| + need > limit {
        FlushFull(datagrams, cuts, buf, frames, i, limit);
        datagrams, cuts, buf := Flush(frames, datagrams, cuts, buf, i, limit);
      }
      AddSnug(datagrams, cuts, buf, frames, i, limit);
      datagrams, cuts, buf := AddFrame(frames, datagrams, cuts, buf, i, limit);
    }
    LastTight(datagrams, cuts, buf, frames, |frames|, limit);
    datagrams, cuts, buf := Flush(frames, datagrams, cuts, buf, |frames|, limit);
    AllProgress(frames, datagrams, cuts, limit);
  }

  lemma EncodedLength(f: WriteFrame)
    ensures |Encode(f)| == HeaderLen + |Payload(f)|
  {
  }

  /** Between two frames: the last datagram left no room for what came after it. */
  ghost predicate Snug(datagrams: seq<seq<byte>>, cuts: seq<nat>, buf: seq<byte>, fs: seq<WriteFrame>, limit: nat) {
    && Tight(datagrams, cuts, fs, limit)
    && (datagrams != [] ==>
          var last, from := |datagrams[|datagrams| - 1]|, cuts[|datagrams|];
          if buf == [] then last > limit else from < |fs| && last + |Encode(fs[from])| > limit)
  }

  /** Before frame i is added: the last datagram has no room for the first frame behind it, perhaps frame i. */
  ghost predicate Full(datagrams: seq<seq<byte>>, cuts: seq<nat>, fs: seq<WriteFrame>, limit: nat) {
    && Tight(datagrams, cuts, fs, limit)
    && (datagrams != [] ==>
          var last, from := |datagrams[|datagrams| - 1]|, cuts[|datagrams|];
          from < |fs| && last + |Encode(fs[from])| > limit)
  }

  lemma NothingSnug(frames: seq<WriteFrame>, limit: nat)
    ensures Snug([], [0], [], frames, limit)
  {
  }

  lemma SnugIsFull(datagrams: seq<seq<byte>>, cuts: seq<nat>, buf: seq<byte>, fs: seq<WriteFrame>, i: nat, limit: nat)
    requires Progress(datagrams, cuts, buf, fs, i, limit) && Snug(datagrams, cuts, buf, fs, limit) && i < |fs|
    ensures Full(datagrams, cuts, fs, limit)
  {
    hide EncodeAll, Encode, Flatten;
  }

  lemma TightSnoc(datagrams: seq<seq<byte>>, cuts: seq<nat>, d: seq<byte>, to: nat, fs: seq<WriteFrame>, limit: nat)
    requires Full(datagrams, cuts, fs, limit)
    ensures Tight(datagrams + [d], cuts + [to], fs, limit)
  {
    hide Encode;
    var ds, cs := datagrams + [d], cuts + [to];
    forall k | 0 < k < |ds| ensures cs[k] < |fs| && |ds[k - 1]| + |Encode(fs[cs[k]])| > limit {
      assert ds[k - 1] == datagrams[k - 1] && cs[k] == cuts[k];
    }
  }

  lemma FlushFull(datagrams: seq<seq<byte>>, cuts: seq<nat>, buf: seq<byte>, fs: seq<WriteFrame>, i: nat, limit: nat)
    requires Full(datagrams, cuts, fs, limit) && i < |fs| && |buf| + |Encode(fs[i])| > limit
    ensures buf != [] ==> Full(datagrams + [buf], cuts + [i], fs, limit)
  {
    hide Encode;
    TightSnoc(datagrams, cuts, buf, i, fs, limit);
  }

  lemma AddSnug(datagrams: seq<seq<byte>>, cuts: seq<nat>, buf: seq<byte>, fs: seq<WriteFrame>, i: nat, limit: nat)
    requires Full(datagrams, cuts, fs, limit) && i < |fs|
    ensures |Encode(fs[i])| > limit ==> Snug(datagrams + [Encode(fs[i])], cuts + [i + 1], [], fs, limit)
    ensures Encode(fs[i]) != [] ==> Snug(datagrams, cuts, buf + Encode(fs[i]), fs, limit)
  {
    hide Encode;
    TightSnoc(datagrams, cuts, Encode(fs[i]), i + 1, fs, limit);
  }

  lemma LastTight(datagrams: seq<seq<byte>>, cuts: seq<nat>, buf: seq<byte>, fs: seq<WriteFrame>, i: nat, limit: nat)
    requires Snug(datagrams, cuts, buf, fs, limit)
    ensures Tight(datagrams, cuts, fs, limit) && (buf != [] ==> Tight(datagrams + [buf], cuts + [i], fs, limit))
  {
    hide Encode;
    if buf != [] {
      TightSnoc(datagrams, cuts, buf, i, fs, limit);
    }
  }

  lemma NoProgress(frames: seq<WriteFrame>, limit: nat)
    ensures Progress([], [0], [], frames, 0, limit)
  {
  }

  lemma AllProgress(frames: seq<WriteFrame>, datagrams: seq<seq<byte>>, cuts: seq<nat>, limit: nat)
    requires Progress(datagrams, cuts, [], frames, |frames|, limit)
    ensures Packed(datagrams, cuts, frames) && cuts[|cuts| - 1] == |frames|
    ensures Fitting(datagrams, cuts, limit) && Flatten(datagrams) == EncodeAll(frames)
  {
    hide EncodeAll, Flatten;
    assert frames[..|frames|] == frames;
    assert Flatten(datagrams) + [] == Flatten(datagrams);
  }

  /** Write out what has been gathered. */
  method Flush(frames: seq<WriteFrame>, datagrams: seq<seq<byte>>, ghost cuts: seq<nat>, buf: seq<byte>, ghost i: nat,
               ghost limit: nat)
    returns (more: seq<seq<byte>>, ghost moreCuts: seq<nat>, rest: seq<byte>)
    requires Progress(datagrams, cuts, buf, frames, i, limit)
    ensures Progress(more, moreCuts, rest, frames, i, limit) && rest == []
    ensures if buf == [] then more == datagrams && moreCuts == cuts
            else more == datagrams + [buf] && moreCuts == cuts + [i]
  {
    if buf == [] {
      return datagrams, cuts, [];
    }
    FlushProgress(frames, datagrams, cuts, buf, i, limit);
    more, moreCuts, rest := datagrams + [buf], cuts + [i], [];
  }

  lemma FlushProgress(frames: seq<WriteFrame>, datagrams: seq<seq<byte>>, cuts: seq<nat>, buf: seq<byte>, i: nat,
                      limit: nat)
    requires Progress(datagrams, cuts, buf, frames, i, limit) && buf != []
    ensures Progress(datagrams + [buf], cuts + [i], [], frames, i, limit)
  {
    assert EncodeAll(frames[i..i]) == [];
    hide Flatten, Encode, EncodeAll;
    CutsExist(datagrams, cuts, frames);
    FlattenSnoc(datagrams, buf);
    assert cuts[|cuts| - 1] < i;
    PackedSnoc(frames, datagrams, cuts, buf, i, limit);
    assert Flatten(datagrams + [buf]) + [] == Flatten(datagrams + [buf]);
  }

  /** Gather frame i, or write it out alone if it is too large for any datagram. */
  method AddFrame(frames: seq<WriteFrame>, datagrams: seq<seq<byte>>, ghost cuts: seq<nat>, buf: seq<byte>, i: nat,
                  limit: nat)
    returns (more: seq<seq<byte>>, ghost moreCuts: seq<nat>, rest: seq<byte>)
    requires i < |frames| && Progress(datagrams, cuts, buf, frames, i, limit)
    requires buf == [] || |buf| + HeaderLen + |Payload(frames[i])| <= limit
    ensures Progress(more, moreCuts, rest, frames, i + 1, limit) && Encode(frames[i]) != []
    ensures if |Encode(frames[i])| > limit
            then more == datagrams + [Encode(frames[i])] && moreCuts == cuts + [i + 1] && rest == []
            else more == datagrams && moreCuts == cuts && rest == buf + Encode(frames[i])
  {
    hide Progress;
    var f := frames[i];
    EncodedLength(f);
    assert buf + Header(f) + Payload(f) == buf + Encode(f);
    if HeaderLen + |Payload(f)| > limit {
      AloneProgress(frames, datagrams, cuts, buf, i, limit);
      more, moreCuts, rest := datagrams + [Header(f) + Payload(f)], cuts + [i + 1], [];
    } else {
      AppendProgress(frames, datagrams, cuts, buf, i, limit);
      more, moreCuts, rest := datagrams, cuts, buf + Header(f) + Payload(f);
    }
  }

  lemma AppendProgress(frames: seq<WriteFrame>, datagrams: seq<seq<byte>>, cuts: seq<nat>, buf: seq<byte>, i: nat,
                       limit: nat)
    requires i < |frames| && Progress(datagrams, cuts, buf, frames, i, limit)
    requires |buf| + HeaderLen + |Payload(frames[i])| <= limit
    ensures Progress(datagrams, cuts, buf + Header(frames[i]) + Payload(frames[i]), frames, i + 1, limit)
  {
    hide EncodeAll, Flatten, Packed, Fitting, PutUint;
    CutsExist(datagrams, cuts, frames);
    var f := frames[i];
    NextFrame(frames, cuts[|cuts| - 1], i);
    assert buf + Header(f) + Payload(f) == buf + Encode(f);
    assert Flatten(datagrams) + (buf + Encode(f)) == (Flatten(datagrams) + buf) + Encode(f);
  }

  lemma AloneProgress(frames: seq<WriteFrame>, datagrams: seq<seq<byte>>, cuts: seq<nat>, buf: seq<byte>, i: nat,
                      limit: nat)
    requires i < |frames| && Progress(datagrams, cuts, buf, frames, i, limit) && buf == []
    ensures Progress(datagrams + [Header(frames[i]) + Payload(frames[i])], cuts + [i + 1], [], frames, i + 1, limit)
  {
    hide Header, Flatten, PutUint;
    var f := frames[i];
    CutsExist(datagrams, cuts, frames);
    NextFrame(frames, i, i);
    PackedSnoc(frames, datagrams, cuts, Encode(f), i + 1, limit);
    FlattenSnoc(datagrams, Encode(f));
    assert Flatten(datagrams) + [] == Flatten(datagrams);
  }

  lemma CutsExist(datagrams: seq<seq<byte>>, cuts: seq<nat>, fs: seq<WriteFrame>)
    requires Packed(datagrams, cuts, fs)
    ensures |cuts| > 0
  {
  }

  lemma PackedSnoc(frames: seq<WriteFrame>, datagrams: seq<seq<byte>>, cuts: seq<nat>, d: seq<byte>, to: nat,
                   limit: nat)
    requires Packed(datagrams, cuts, frames) && Fitting(datagrams, cuts, limit)
    requires cuts[|cuts| - 1] < to <= |frames| && d == EncodeAll(frames[cuts[|cuts| - 1]..to])
    requires |d| <= limit || to == cuts[|cuts| - 1] + 1
    ensures Packed(datagrams + [d], cuts + [to], frames) && Fitting(datagrams + [d], cuts + [to], limit)
  {
    hide EncodeAll;
    var ds, cs, n := datagrams + [d], cuts + [to], |datagrams|;
    forall k {:trigger ds[k]} | 0 <= k < |ds|
      ensures cs[k] < cs[k + 1] <= |frames| && ds[k] == EncodeAll(frames[cs[k]..cs[k + 1]])
      ensures |ds[k]| <= limit || cs[k + 1] == cs[k] + 1
    {
      if k < n {
        assert ds[k] == datagrams[k] && cs[k] == cuts[k] && cs[k + 1] == cuts[k + 1];
      } else {
        assert ds[k] == d && cs[k] == cuts[n] && cs[k + 1] == to;
      }
    }
  }

  lemma NextFrame(frames: seq<WriteFrame>, from: nat, i: nat)
    requires from <= i < |frames|
    ensures EncodeAll(frames[from..i + 1]) == EncodeAll(frames[from..i]) + Encode(frames[i])
    ensures EncodeAll(frames[..i + 1]) == EncodeAll(frames[..i]) + Encode(frames[i])
  {
    assert frames[from..i + 1] == frames[from..i] + [frames[i]];
    assert frames[..i + 1] == frames[..i] + [frames[i]];
    EncodeAllSnoc(frames[from..i], frames[i]);
    EncodeAllSnoc(frames[..i], frames[i]);
  }

  // ---------- decoding ----------

  /** A received frame. */
  datatype Packet = Packet(flag: byte, chID: nat, length: nat, offset: nat, payload: seq<byte>)

  /** Why the parser stopped: it needs more bytes, the framing is broken, or the peer said goodbye. */
  datatype Verdict = More | Violation | GoneAway

  datatype Parsed = Parsed(packets: seq<Packet>, verdict: Verdict)

  function Prepend(p: Packet, rest: Parsed): Parsed {
    Parsed([p] + rest.packets, rest.verdict)
  }

  function LengthOf(data: seq<byte>): nat
    requires |data| >= HeaderLen
  {
    Uint(data[0..4])
  }

  function PacketOf(data: seq<byte>, payload: seq<byte>): Packet
    requires |data| >= HeaderLen
  {
    Packet(data[4], Uint(data[5..9]), LengthOf(data), Uint(data[9..17]), payload)
  }

  /** Flags without a payload that keep the connection going. */
  predicate Bare(flag: byte) {
    flag == NOOP || flag == FIN || flag == PING || flag == PONG || flag == UPD || flag == ACK || flag == RST
  }

  /** The frames of a byte stream: only DATA carries a payload. */
  function ParseStream(data: seq<byte>, max: nat): Parsed {
    if |data| < HeaderLen then Parsed([], More)
    else
      var flag, len := data[4], LengthOf(data);
      if flag == DATA then
        if len == 0 then ParseStream(data[HeaderLen..], max)
        else if len > max || len > MaxAllocSize then Parsed([], Violation)
        else if |data| < HeaderLen + len then Parsed([], More)
        else Prepend(PacketOf(data, data[HeaderLen..HeaderLen + len]), ParseStream(data[HeaderLen + len..], max))
      else if flag == RST && len != 0 then Parsed([], Violation)
      else if Bare(flag) then Prepend(PacketOf(data, []), ParseStream(data[HeaderLen..], max))
      else if flag == GOAWAY then Parsed([], GoneAway)
      else Parsed([], Violation)
  }

  /** The frames of one datagram: every frame is taken to be followed by `length` bytes. */
  function Walk(data: seq<byte>): Parsed {
    if |data| < HeaderLen || |data| < HeaderLen + LengthOf(data) then Parsed([], More)
    else
      var flag, end := data[4], HeaderLen + LengthOf(data);
      if flag == DATA then
        if end == HeaderLen then Walk(data[end..])
        else Prepend(PacketOf(data, data[HeaderLen..end]), Walk(data[end..]))
      else if Bare(flag) then Prepend(PacketOf(data, []), Walk(data[end..]))
      else if flag == GOAWAY then Parsed([], GoneAway)
      else Parsed([], Violation)
  }

  /** The stream loop: a header, then the payload of a DATA frame. */
  method ReadStream(data: seq<byte>, max: nat) returns (packets: seq<Packet>, verdict: Verdict)
    ensures Parsed(packets, verdict) == ParseStream(data, max)
  {
    packets, verdict := [], More;
    var rest := data;
    while |rest| >= HeaderLen
      invariant ParseStream(data, max) == Onto(packets, ParseStream(rest, max)) && verdict == More
      decreases |rest|
    {
      hide Uint;
      OntoTwice(packets);
      var flag, len := rest[4], LengthOf(rest);
      if flag == DATA && len > 0 {
        if len > max || len > MaxAllocSize {
          verdict := Violation;
          return;
        }
        if |rest| < HeaderLen + len {
          return;
        }
        packets := packets + [PacketOf(rest, rest[HeaderLen..HeaderLen + len])];
        rest := rest[HeaderLen + len..];
      } else if flag == DATA {
        rest := rest[HeaderLen..];
      } else if Bare(flag) && !(flag == RST && len != 0) {
        packets := packets + [PacketOf(rest, [])];
        rest := rest[HeaderLen..];
      } else {
        verdict := if flag == GOAWAY then GoneAway else Violation;
        return;
      }
    }
  }

  /** `rest` parsed after `packets` had already been found. */
  function Onto(packets: seq<Packet>, rest: Parsed): Parsed {
    Parsed(packets + rest.packets, rest.verdict)
  }

  lemma OntoTwice(packets: seq<Packet>)
    ensures forall p: Packet, rest: Parsed :: Onto(packets, Prepend(p, rest)) == Onto(packets + [p], rest)
    ensures forall v: Verdict :: Onto(packets, Parsed([], v)) == Parsed(packets, v)
  {
    forall p: Packet, rest: Parsed ensures Onto(packets, Prepend(p, rest)) == Onto(packets + [p], rest) {
      assert packets + ([p] + rest.packets) == (packets + [p]) + rest.packets;
    }
    assert packets + [] == packets;
  }

  /** The datagram loop, advancing an offset. */
  method WalkDatagram(data: seq<byte>) returns (packets: seq<Packet>, verdict: Verdict)
    ensures Parsed(packets, verdict) == Walk(data)
  {
    hide Walk, Onto;
    packets, verdict := [], More;
    var off := 0;
    assert data[0..] == data;
    OntoNothing(Walk(data));
    while off + HeaderLen <= |data|
      invariant 0 <= off <= |data| && verdict == More
      invariant Walk(data) == Onto(packets, Walk(data[off..]))
      decreases |data| - off
    {
      var found, end, stop := TakeFrame(data[off..]);
      if stop.Some? {
        verdict := stop.value;
        NothingMore(packets, verdict);
        return;
      }
      assert data[off..][end..] == data[off + end..];
      OntoOnto(packets, found, Walk(data[off + end..]));
      packets := packets + found;
      off := off + end;
    }
    TooShort(data[off..]);
    NothingMore(packets, verdict);
  }

  lemma TooShort(data: seq<byte>)
    requires |data| < HeaderLen
    ensures Walk(data) == Parsed([], More)
  {
  }

  lemma OntoNothing(p: Parsed)
    ensures Onto([], p) == p
  {
  }

  lemma NothingMore(packets: seq<Packet>, v: Verdict)
    ensures Onto(packets, Parsed([], v)) == Parsed(packets, v)
  {
  }

  lemma OntoOnto(a: seq<Packet>, b: seq<Packet>, p: Parsed)
    ensures Onto(a, Onto(b, p)) == Onto(a + b, p)
  {
    assert a + (b + p.packets) == (a + b) + p.packets;
  }

  /** The frame at the front of a datagram, and how far to step; or the reason to stop. */
  method TakeFrame(rest: seq<byte>) returns (found: seq<Packet>, end: nat, stop: Option<Verdict>)
    requires |rest| >= HeaderLen
    ensures stop.Some? ==> Walk(rest) == Parsed([], stop.value)
    ensures stop.None? ==> HeaderLen <= end <= |rest| && Walk(rest) == Onto(found, Walk(rest[end..]))
  {
    var flag := rest[4];
    found, end, stop := [], HeaderLen + LengthOf(rest), None;
    if end > |rest| {
      stop := Some(More);
    } else if flag == DATA {
      if end != HeaderLen {
        found := [PacketOf(rest, rest[HeaderLen..end])];
      } else {
        assert [] + Walk(rest[end..]).packets == Walk(rest[end..]).packets;
      }
    } else if Bare(flag) {
      found := [PacketOf(rest, [])];
    } else {
      stop := Some(if flag == GOAWAY then GoneAway else Violation);
    }
  }

  // ---------- round trips ----------

  /** Frames as the writer makes them: fields in range, a payload of the stated
      length on DATA, none on control frames, a positive grant on updates. */
  predicate Sendable(f: WriteFrame, max: nat) {
    && f.length < Pow256(4) && f.chID < Pow256(4) && f.offset < Pow256(8)
    && (if f.flag == DATA then 0 < f.length <= max && f.length <= MaxAllocSize && f.payload.Some? &&
        |f.payload.value| == f.length
        else f.payload.None? && Bare(f.flag) && (f.flag == UPD <==> f.length > 0))
  }

  function ToPacket(f: WriteFrame): Packet {
    Packet(f.flag, f.chID, f.length, f.offset, Payload(f))
  }

  function ToPackets(fs: seq<WriteFrame>): seq<Packet> {
    if fs == [] then [] else [ToPacket(fs[0])] + ToPackets(fs[1..])
  }

  lemma HeaderRoundTrip(f: WriteFrame, tail: seq<byte>)
    requires f.length < Pow256(4) && f.chID < Pow256(4) && f.offset < Pow256(8)
    ensures forall p :: PacketOf(Header(f) + tail, p) == Packet(f.flag, f.chID, f.length, f.offset, p)
    ensures (Header(f) + tail)[4] == f.flag && LengthOf(Header(f) + tail) == f.length
  {
    hide Pow256, Uint, PutUint;
    var l, c, o := PutUint(4, f.length), PutUint(4, f.chID), PutUint(8, f.offset);
    var data := Header(f) + tail;
    assert data[0..4] == l && data[5..9] == c && data[9..17] == o;
    UintRoundTrip(4, f.length);
    UintRoundTrip(4, f.chID);
    UintRoundTrip(8, f.offset);
  }

  lemma StreamStep(f: WriteFrame, rest: seq<byte>, max: nat)
    requires Sendable(f, max)
    ensures ParseStream(Encode(f) + rest, max) == Prepend(ToPacket(f), ParseStream(rest, max))
  {
    hide Header, Pow256, Uint, PutUint;
    var data := Encode(f) + rest;
    assert data == Header(f) + (Payload(f) + rest);
    HeaderRoundTrip(f, Payload(f) + rest);
    assert data[HeaderLen..] == Payload(f) + rest;
    if f.flag == DATA {
      assert data[HeaderLen..HeaderLen + f.length] == Payload(f);
      assert data[HeaderLen + f.length..] == rest;
    } else {
      assert Payload(f) + rest == rest;
    }
  }

  /** The stream parser recovers exactly the frames that were sent, all kinds, and
      goes on with whatever follows. */
  lemma {:induction false} StreamRoundTrip(fs: seq<WriteFrame>, rest: seq<byte>, max: nat)
    requires forall f <- fs :: Sendable(f, max)
    ensures ParseStream(EncodeAll(fs) + rest, max)
         == Parsed(ToPackets(fs) + ParseStream(rest, max).packets, ParseStream(rest, max).verdict)
  {
    hide ParseStream, Encode, Pow256, ToPacket;
    if fs == [] {
      assert EncodeAll(fs) + rest == rest;
    } else {
      StreamRoundTrip(fs[1..], rest, max);
      assert EncodeAll(fs) + rest == Encode(fs[0]) + (EncodeAll(fs[1..]) + rest);
      StreamStep(fs[0], EncodeAll(fs[1..]) + rest, max);
    }
  }

  /** The fields of a header are in range; its flag may be anything. */
  predicate Headed(h: WriteFrame) {
    h.length < Pow256(4) && h.chID < Pow256(4) && h.offset < Pow256(8)
  }

  /** The flags that carry no payload and do not end the connection. */
  predicate Plain(flag: byte) {
    flag == NOOP || flag == FIN || flag == PING || flag == PONG || flag == UPD || flag == ACK
  }

  /**
   Any header after any list of sent frames, and any bytes behind it: GOAWAY ends the reading, a DATA frame too
   long, a reset with a length and an unknown flag break it, a payload that is not all there waits for more, an
   empty DATA frame is skipped, and everything else is one more frame.
   */
  lemma StreamThen(fs: seq<WriteFrame>, h: WriteFrame, tail: seq<byte>, max: nat)
    requires (forall f <- fs :: Sendable(f, max)) && Headed(h)
    ensures var r, ps := ParseStream(EncodeAll(fs) + (Header(h) + tail), max), ToPackets(fs);
      var p := Packet(h.flag, h.chID, h.length, h.offset, []);
      && (h.flag == GOAWAY ==> r == Parsed(ps, GoneAway))
      && (h.flag == DATA && h.length > 0 && (h.length > max || h.length > MaxAllocSize) ==> r == Parsed(ps, Violation))
      && (h.flag == RST && h.length > 0 ==> r == Parsed(ps, Violation))
      && (h.flag == 0 || h.flag > RST ==> r == Parsed(ps, Violation))
      && (h.flag == DATA && 0 < h.length <= max && h.length <= MaxAllocSize ==>
            r == if |tail| < h.length then Parsed(ps, More)
                 else Onto(ps + [p.(payload := tail[..h.length])], ParseStream(tail[h.length..], max)))
      && (h.flag == DATA && h.length == 0 ==> r == Onto(ps, ParseStream(tail, max)))
      && (Plain(h.flag) || (h.flag == RST && h.length == 0) ==> r == Onto(ps + [p], ParseStream(tail, max)))
  {
    StreamRoundTrip(fs, Header(h) + tail, max);
    StreamOne(h, tail, max);
    hide EncodeAll, Header, ParseStream, ToPackets, Sendable, Pow256;
    OntoTwice(ToPackets(fs));
  }

  lemma StreamOne(h: WriteFrame, tail: seq<byte>, max: nat)
    requires Headed(h)
    ensures var r := ParseStream(Header(h) + tail, max);
      var p := Packet(h.flag, h.chID, h.length, h.offset, []);
      && (h.flag == GOAWAY ==> r == Parsed([], GoneAway))
      && (h.flag == DATA && h.length > 0 && (h.length > max || h.length > MaxAllocSize) ==> r == Parsed([], Violation))
      && (h.flag == RST && h.length > 0 ==> r == Parsed([], Violation))
      && (h.flag == 0 || h.flag > RST ==> r == Parsed([], Violation))
      && (h.flag == DATA && 0 < h.length <= max && h.length <= MaxAllocSize ==>
            r == if |tail| < h.length then Parsed([], More)
                 else Prepend(p.(payload := tail[..h.length]), ParseStream(tail[h.length..], max)))
      && (h.flag == DATA && h.length == 0 ==> r == ParseStream(tail, max))
      && (Plain(h.flag) || (h.flag == RST && h.length == 0) ==> r == Prepend(p, ParseStream(tail, max)))
  {
    hide Header, Pow256, Uint, PutUint;
    HeaderRoundTrip(h, tail);
    var data := Header(h) + tail;
    assert data[HeaderLen..] == tail;
    if h.flag == DATA && h.length <= |tail| {
      assert data[HeaderLen..HeaderLen + h.length] == tail[..h.length];
      assert data[HeaderLen + h.length..] == tail[h.length..];
    }
  }

  /** Fewer bytes than a header after any list of sent frames wait for more. */
  lemma StreamShort(fs: seq<WriteFrame>, tail: seq<byte>, max: nat)
    requires (forall f <- fs :: Sendable(f, max)) && |tail| < HeaderLen
    ensures ParseStream(EncodeAll(fs) + tail, max) == Parsed(ToPackets(fs), More)
  {
    StreamRoundTrip(fs, tail, max);
    hide EncodeAll, ToPackets, Sendable;
  }

  predicate NoUpdates(fs: seq<WriteFrame>) {
    forall f <- fs :: f.flag != UPD
  }

  lemma WalkStep(f: WriteFrame, rest: seq<byte>, max: nat)
    requires Sendable(f, max) && f.flag != UPD
    ensures Walk(Encode(f) + rest) == Prepend(ToPacket(f), Walk(rest))
  {
    hide Header, Pow256, Uint, PutUint;
    var data := Encode(f) + rest;
    assert data == Header(f) + (Payload(f) + rest);
    HeaderRoundTrip(f, Payload(f) + rest);
    assert data[HeaderLen..HeaderLen + f.length] == Payload(f);
    assert data[HeaderLen + f.length..] == rest;
  }

  lemma {:induction false} WalkRoundTrip(fs: seq<WriteFrame>, max: nat)
    requires (forall f <- fs :: Sendable(f, max)) && NoUpdates(fs)
    ensures Walk(EncodeAll(fs)) == Parsed(ToPackets(fs), More)
  {
    if fs != [] {
      WalkRoundTrip(fs[1..], max);
      WalkStep(fs[0], EncodeAll(fs[1..]), max);
    }
  }

  lemma {:induction false} WalkOnto(fs: seq<WriteFrame>, rest: seq<byte>, max: nat)
    requires (forall f <- fs :: Sendable(f, max)) && NoUpdates(fs)
    ensures Walk(EncodeAll(fs) + rest) == Onto(ToPackets(fs), Walk(rest))
  {
    hide Walk, Encode, Pow256, ToPacket, Sendable;
    if fs == [] {
      assert EncodeAll(fs) + rest == rest;
      OntoNothing(Walk(rest));
    } else {
      WalkOnto(fs[1..], rest, max);
      assert EncodeAll(fs) + rest == Encode(fs[0]) + (EncodeAll(fs[1..]) + rest);
      WalkStep(fs[0], EncodeAll(fs[1..]) + rest, max);
      assert [ToPacket(fs[0])] + (ToPackets(fs[1..]) + Walk(rest).packets)
          == ToPackets(fs) + Walk(rest).packets;
    }
  }

  /**
   The same for a datagram, whose loop has its own rules: a frame longer than what is left ends it whatever
   the flag, no length is too long, a reset may have one, and the length is stepped over behind every frame.
   */
  lemma WalkThen(fs: seq<WriteFrame>, h: WriteFrame, tail: seq<byte>, max: nat)
    requires (forall f <- fs :: Sendable(f, max)) && NoUpdates(fs) && Headed(h)
    ensures var r, ps := Walk(EncodeAll(fs) + (Header(h) + tail)), ToPackets(fs);
      var p := Packet(h.flag, h.chID, h.length, h.offset, []);
      if |tail| < h.length then r == Parsed(ps, More)
      else
        var rest := Walk(tail[h.length..]);
        && (h.flag == GOAWAY ==> r == Parsed(ps, GoneAway))
        && (h.flag == 0 || h.flag > RST ==> r == Parsed(ps, Violation))
        && (h.flag == DATA && h.length > 0 ==> r == Onto(ps + [p.(payload := tail[..h.length])], rest))
        && (h.flag == DATA && h.length == 0 ==> r == Onto(ps, rest))
        && (Plain(h.flag) || h.flag == RST ==> r == Onto(ps + [p], rest))
  {
    WalkOnto(fs, Header(h) + tail, max);
    WalkOne(h, tail);
    hide EncodeAll, Header, Walk, ToPackets, Sendable, Pow256;
    OntoTwice(ToPackets(fs));
  }

  lemma WalkOne(h: WriteFrame, tail: seq<byte>)
    requires Headed(h)
    ensures var r := Walk(Header(h) + tail);
      var p := Packet(h.flag, h.chID, h.length, h.offset, []);
      if |tail| < h.length then r == Parsed([], More)
      else
        var rest := Walk(tail[h.length..]);
        && (h.flag == GOAWAY ==> r == Parsed([], GoneAway))
        && (h.flag == 0 || h.flag > RST ==> r == Parsed([], Violation))
        && (h.flag == DATA && h.length > 0 ==> r == Prepend(p.(payload := tail[..h.length]), rest))
        && (h.flag == DATA && h.length == 0 ==> r == rest)
        && (Plain(h.flag) || h.flag == RST ==> r == Prepend(p, rest))
  {
    hide Header, Pow256, Uint, PutUint;
    HeaderRoundTrip(h, tail);
    var data := Header(h) + tail;
    if h.length <= |tail| {
      assert data[HeaderLen..HeaderLen + h.length] == tail[..h.length];
      assert data[HeaderLen + h.length..] == tail[h.length..];
    }
  }

  /** Bytes the datagram loop steps over for a list of frames. */
  function Extent(ps: seq<Packet>): nat {
    if ps == [] then 0 else HeaderLen + ps[0].length + Extent(ps[1..])
  }

  lemma {:induction false} WalkExtent(data: seq<byte>)
    ensures Extent(Walk(data).packets) <= |data|
    decreases |data|
  {
    if |data| >= HeaderLen + 0 && |data| >= HeaderLen && |data| >= HeaderLen + LengthOf(data) {
      var end := HeaderLen + LengthOf(data);
      WalkExtent(data[end..]);
      var w := Walk(data[end..]).packets;
      forall p: Packet ensures ([p] + w)[1..] == w {}
    }
  }

  lemma {:induction false} SentExtent(fs: seq<WriteFrame>, max: nat)
    requires forall f <- fs :: Sendable(f, max)
    ensures Extent(ToPackets(fs)) >= |EncodeAll(fs)|
    ensures !NoUpdates(fs) ==> Extent(ToPackets(fs)) > |EncodeAll(fs)|
  {
    hide Pow256, PutUint, Header;
    if fs != [] {
      SentExtent(fs[1..], max);
      assert ToPackets(fs)[1..] == ToPackets(fs[1..]);
      assert Sendable(fs[0], max);
      assert |Encode(fs[0])| == HeaderLen + |Payload(fs[0])| && |Payload(fs[0])| <= fs[0].length;
      assert |EncodeAll(fs)| == |Encode(fs[0])| + |EncodeAll(fs[1..])|;
      assert Extent(ToPackets(fs)) == HeaderLen + fs[0].length + Extent(ToPackets(fs[1..]));
      assert fs == [fs[0]] + fs[1..];
      assert NoUpdates(fs) <==> fs[0].flag != UPD && NoUpdates(fs[1..]);
    }
  }

  /** The datagram loop recovers the frames that were sent if and only if none of them
      is a window update: it takes an update's grant for the length of a payload that
      is not there. */
  lemma DatagramRoundTripIff(fs: seq<WriteFrame>, max: nat)
    requires forall f <- fs :: Sendable(f, max)
    ensures Walk(EncodeAll(fs)).packets == ToPackets(fs) <==> NoUpdates(fs)
  {
    if NoUpdates(fs) {
      WalkRoundTrip(fs, max);
    } else {
      SentExtent(fs, max);
      WalkExtent(EncodeAll(fs));
    }
  }

  /** A window update that ends its datagram is dropped, whatever it grants. */
  lemma TrailingUpdateIsLost(fs: seq<WriteFrame>, u: WriteFrame, max: nat)
    requires (forall f <- fs :: Sendable(f, max)) && NoUpdates(fs) && Sendable(u, max) && u.flag == UPD
    ensures Walk(EncodeAll(fs + [u])).packets == ToPackets(fs)
  {
    WalkUpTo(fs, u, max);
    EncodeAllSnoc(fs, u);
  }

  lemma {:induction false} WalkUpTo(fs: seq<WriteFrame>, u: WriteFrame, max: nat)
    requires (forall f <- fs :: Sendable(f, max)) && NoUpdates(fs) && Sendable(u, max) && u.flag == UPD
    ensures Walk(EncodeAll(fs) + Encode(u)).packets == ToPackets(fs)
  {
    hide Pow256, PutUint, Header, ToPacket;
    if fs == [] {
      assert EncodeAll(fs) + Encode(u) == Header(u) + [];
      HeaderRoundTrip(u, []);
    } else {
      hide Walk, Encode;
      WalkUpTo(fs[1..], u, max);
      assert EncodeAll(fs) + Encode(u) == Encode(fs[0]) + (EncodeAll(fs[1..]) + Encode(u));
      WalkStep(fs[0], EncodeAll(fs[1..]) + Encode(u), max);
    }
  }

  // ---------- packing and walking together ----------

  /** What the datagram loop takes out of a list of datagrams. */
  function WalkAll(datagrams: seq<seq<byte>>): seq<Packet> {
    if datagrams == [] then []
    else WalkAll(datagrams[..|datagrams| - 1]) + Walk(datagrams[|datagrams| - 1]).packets
  }

  lemma {:induction false} ExtentConcat(a: seq<Packet>, b: seq<Packet>)
    ensures Extent(a + b) == Extent(a) + Extent(b)
  {
    if a == [] {
      assert a + b == b;
    } else {
      assert (a + b)[1..] == a[1..] + b;
      ExtentConcat(a[1..], b);
    }
  }

  lemma WalkAllSnoc(datagrams: seq<seq<byte>>, d: seq<byte>)
    ensures WalkAll(datagrams + [d]) == WalkAll(datagrams) + Walk(d).packets
  {
    hide Walk;
    var all := datagrams + [d];
    assert all[..|all| - 1] == datagrams && all[|all| - 1] == d;
  }

  lemma {:induction false} WalkAllExtent(datagrams: seq<seq<byte>>)
    ensures Extent(WalkAll(datagrams)) <= |Flatten(datagrams)|
  {
    if datagrams != [] {
      var init, last := datagrams[..|datagrams| - 1], datagrams[|datagrams| - 1];
      assert datagrams == init + [last];
      hide Walk, Flatten, WalkAll, Extent;
      WalkAllExtent(init);
      WalkExtent(last);
      WalkAllSnoc(init, last);
      ExtentConcat(WalkAll(init), Walk(last).packets);
      FlattenSnoc(init, last);
    }
  }

  lemma {:induction false} ToPacketsConcat(a: seq<WriteFrame>, b: seq<WriteFrame>)
    ensures ToPackets(a + b) == ToPackets(a) + ToPackets(b)
  {
    if a == [] {
      assert a + b == b;
    } else {
      assert (a + b)[1..] == a[1..] + b;
      ToPacketsConcat(a[1..], b);
    }
  }

  lemma PartWalks(datagrams: seq<seq<byte>>, cuts: seq<nat>, fs: seq<WriteFrame>, max: nat, k: nat)
    requires Packed(datagrams, cuts, fs) && k < |datagrams| && (forall f <- fs :: Sendable(f, max)) && NoUpdates(fs)
    ensures cuts[k] <= cuts[k + 1] <= |fs| && Walk(datagrams[k]).packets == ToPackets(fs[cuts[k]..cuts[k + 1]])
  {
    hide Walk, EncodeAll, Sendable, ToPackets;
    var d := datagrams[k];
    var part := fs[cuts[k]..cuts[k + 1]];
    assert d == EncodeAll(part);
    WalkRoundTrip(part, max);
  }

  ghost predicate Recovered(datagrams: seq<seq<byte>>, cuts: seq<nat>, fs: seq<WriteFrame>, k: nat) {
    k <= |datagrams| && k < |cuts| && cuts[k] <= |fs| && WalkAll(datagrams[..k]) == ToPackets(fs[..cuts[k]])
  }

  lemma RecoveredNext(datagrams: seq<seq<byte>>, cuts: seq<nat>, fs: seq<WriteFrame>, k: nat)
    requires Recovered(datagrams, cuts, fs, k) && k < |datagrams| && k + 1 < |cuts| && cuts[k] <= cuts[k + 1] <= |fs|
    requires Walk(datagrams[k]).packets == ToPackets(fs[cuts[k]..cuts[k + 1]])
    ensures Recovered(datagrams, cuts, fs, k + 1)
  {
    hide Walk, WalkAll, ToPackets;
    var a, b := cuts[k], cuts[k + 1];
    WalkAllSnoc(datagrams[..k], datagrams[k]);
    ToPacketsConcat(fs[..a], fs[a..b]);
    assert fs[..b] == fs[..a] + fs[a..b];
    assert datagrams[..k + 1] == datagrams[..k] + [datagrams[k]];
  }

  lemma {:induction false} WalkAllPacked(datagrams: seq<seq<byte>>, cuts: seq<nat>, fs: seq<WriteFrame>, max: nat,
                                         k: nat)
    requires Packed(datagrams, cuts, fs) && k <= |datagrams| && (forall f <- fs :: Sendable(f, max)) && NoUpdates(fs)
    ensures Recovered(datagrams, cuts, fs, k)
  {
    if k > 0 {
      WalkAllPacked(datagrams, cuts, fs, max, k - 1);
      PartWalks(datagrams, cuts, fs, max, k - 1);
      assert k < |cuts|;
      hide Recovered, Packed, NoUpdates, Walk, ToPackets, Sendable;
      RecoveredNext(datagrams, cuts, fs, k - 1);
    } else {
      assert datagrams[..0] == [] && fs[..0] == [];
    }
  }

  /** Packed frames are recovered, over all their datagrams, exactly when none is a window update. */
  lemma PackedRoundTripIff(datagrams: seq<seq<byte>>, cuts: seq<nat>, fs: seq<WriteFrame>, max: nat)
    requires Packed(datagrams, cuts, fs) && cuts[|cuts| - 1] == |fs| && Flatten(datagrams) == EncodeAll(fs)
    requires forall f <- fs :: Sendable(f, max)
    ensures WalkAll(datagrams) == ToPackets(fs) <==> NoUpdates(fs)
  {
    hide Walk, Flatten, EncodeAll, WalkAll, ToPackets, Sendable;
    if NoUpdates(fs) {
      WalkAllPacked(datagrams, cuts, fs, max, |datagrams|);
      assert datagrams[..|datagrams|] == datagrams && fs[..|fs|] == fs;
    } else {
      SentExtent(fs, max);
      WalkAllExtent(datagrams);
    }
  }

  lemma WalkNothing()
    ensures WalkAll([]) == []
  {
  }

  /** What one end packs and the other end walks: the same frames, exactly without window updates. */
  method PackAndWalk(frames: seq<WriteFrame>, max: int, maxData: nat) returns (packets: seq<Packet>)
    requires forall f <- frames :: Sendable(f, maxData)
    ensures packets == ToPackets(frames) <==> NoUpdates(frames)
  {
    WalkNothing();
    hide Walk, WalkAll, EncodeAll, ToPackets, Sendable, NoUpdates, Packed, Fitting, Flatten;
    var datagrams, cuts := FlushDatagrams(frames, max);
    packets := [];
    for i := 0 to |datagrams|
      invariant packets == WalkAll(datagrams[..i])
    {
      var found, verdict := WalkDatagram(datagrams[i]);
      assert datagrams[..i + 1] == datagrams[..i] + [datagrams[i]];
      WalkAllSnoc(datagrams[..i], datagrams[i]);
      packets := packets + found;
    }
    assert datagrams[..|datagrams|] == datagrams;
    PackedRoundTripIff(datagrams, cuts, frames, maxData);
  }
}
