/**
 * H.264 over RTP (RFC 6184 sections 5.6 and 5.8, RFC 3550 section 5.1): the packetiser of
 * protocol/librtp/rtpmux_h264.cpp and the depacketiser of protocol/librtp/rtpdemux_h264.cpp.
 */
module RtpH264 {
  import opened Bytes

  const MAX_BODY := 1440
  /** 90000 / 25 */
  const TICK := 3600
  const WRAP_CORNER := 10000
  const FU_A := 28

  // ---------------------------------------------------------------- packetiser

  datatype Mux = Mux(seqNo: nat, timestamp: nat, ssrc: nat) {
    predicate Valid() { seqNo < TWO16 && timestamp < TWO32 && ssrc < TWO32 }
  }

  function RtpHeader(marker: bool, seqNo: nat, timestamp: nat, ssrc: nat): (h: seq<byte>)
    ensures |h| == 12
  {
    [0x80, (if marker then 128 else 0) + 96] + Be16(seqNo) + Be32(timestamp) + Be32(ssrc)
  }

  /** One FU-A packet: indicator with the NAL unit's upper bits, header with its type. */
  function Fragment(m: Mux, nal: byte, first: bool, last: bool, chunk: seq<byte>): seq<byte> {
    RtpHeader(last, m.seqNo, m.timestamp, m.ssrc)
    + [nal / 32 * 32 + FU_A, (if first then 128 else 0) + (if last then 64 else 0) + nal % 32]
    + chunk
  }

  function Bump(m: Mux): (r: Mux)
    requires m.Valid()
    ensures r.Valid()
  {
    m.(seqNo := (m.seqNo + 1) % TWO16)
  }

  function FragmentCount(rest: seq<byte>): nat { (|rest| + MAX_BODY - 1) / MAX_BODY }

  /** The fragments of what follows the first byte of a NAL unit. */
  function Fragments(m: Mux, nal: byte, first: bool, rest: seq<byte>): (ps: seq<seq<byte>>)
    requires m.Valid()
    ensures |ps| == FragmentCount(rest)
    decreases |rest|
  {
    if rest == [] then []
    else if |rest| <= MAX_BODY then [Fragment(m, nal, first, true, rest)]
    else [Fragment(m, nal, first, false, rest[..MAX_BODY])] + Fragments(Bump(m), nal, false, rest[MAX_BODY..])
  }

  /** rtpmux_h264_setframe: the packets of a frame. */
  function Packets(m: Mux, frame: seq<byte>): (ps: seq<seq<byte>>)
    requires m.Valid()
  {
    if |frame| <= MAX_BODY then [RtpHeader(true, m.seqNo, m.timestamp, m.ssrc) + frame]
    else Fragments(m, frame[0], true, frame[1..])
  }

  function After(m: Mux, frame: seq<byte>): (r: Mux)
    requires m.Valid()
    ensures r.Valid() && r.ssrc == m.ssrc
  {
    Mux((m.seqNo + |Packets(m, frame)|) % TWO16, (m.timestamp + TICK) % TWO32, m.ssrc)
  }

  /** All packets of a run of frames. */
  function RunPackets(m: Mux, frames: seq<seq<byte>>): seq<seq<byte>>
    requires m.Valid()
    decreases |frames|
  {
    if frames == [] then [] else Packets(m, frames[0]) + RunPackets(After(m, frames[0]), frames[1..])
  }

  // ---------------------------------------------------------------- depacketiser

  /** The frame being put together, and the time stamp and source it belongs to. */
  datatype Demux = Demux(buffer: seq<byte>, timestamp: nat, ssrc: nat)

  /** A call of the frame callback. */
  datatype Call = Call(frame: seq<byte>, timestamp: nat, ssrc: nat)

  predicate Newer(before: nat, now: nat) {
    before < now || (before > WRAP_CORNER && now < WRAP_CORNER)
  }

  /** What a payload adds to the buffer. */
  function Append(buffer: seq<byte>, payload: seq<byte>): seq<byte>
    requires |payload| >= 2
  {
    var kind := payload[0] % 32;
    if kind in {1, 5, 6, 7, 8} then buffer + START_CODE + payload
    else if kind == FU_A then
      (if buffer == [] then START_CODE + [payload[0] / 32 * 32 + payload[1] % 32] else buffer) + payload[2..]
    else buffer
  }

  /** rtpdemux_h264_setpacket: new state, and the callback if there is one. */
  function OnPacket(d: Demux, packet: seq<byte>): (Demux, seq<Call>) {
    if |packet| < 14 then (d, [])
    else
      var ts, ssrc := LoadBe32(packet[4..8]), LoadBe32(packet[8..12]);
      var d1 := if d.buffer == [] then d.(timestamp := ts, ssrc := ssrc) else d;
      var flush := Newer(d1.timestamp, ts);
      var calls := if flush then [Call(d1.buffer, d1.timestamp, d1.ssrc)] else [];
      var d2 := if flush then Demux([], ts, ssrc) else d1;
      if d2.timestamp != ts then (d2, calls)
      else (d2.(buffer := Append(d2.buffer, packet[12..])), calls)
  }

  function OnPackets(d: Demux, packets: seq<seq<byte>>): (Demux, seq<Call>)
    decreases |packets|
  {
    if packets == [] then (d, [])
    else
      var (d1, a) := OnPacket(d, packets[0]);
      var (d2, b) := OnPackets(d1, packets[1..]);
      (d2, a + b)
  }

  lemma {:induction false} OnPacketsConcat(d: Demux, a: seq<seq<byte>>, b: seq<seq<byte>>)
    ensures var (d1, ca) := OnPackets(d, a);
            var (d2, cb) := OnPackets(d1, b);
            OnPackets(d, a + b) == (d2, ca + cb)
    decreases |a|
  {
    hide OnPacket;
    if a == [] {
      assert a + b == b;
      assert [] + OnPackets(d, b).1 == OnPackets(d, b).1;
    } else {
      assert (a + b)[1..] == a[1..] + b && (a + b)[0] == a[0];
      var (d1, c) := OnPacket(d, a[0]);
      OnPacketsConcat(d1, a[1..], b);
      var (d2, ca) := OnPackets(d1, a[1..]);
      assert c + ca + OnPackets(d2, b).1 == c + (ca + OnPackets(d2, b).1);
    }
  }

  // ---------------------------------------------------------------- round trip

  /** What the depacketiser makes of a frame of at least two bytes. */
  function Content(frame: seq<byte>): seq<byte>
    requires |frame| >= 2
  {
    if |frame| > MAX_BODY then START_CODE + frame else Append([], frame)
  }

  /** A frame comes back as sent exactly if it was fragmented or is of a type the reader knows. */
  lemma ContentIff(frame: seq<byte>)
    requires |frame| >= 2
    ensures Content(frame) == START_CODE + frame <==> |frame| > MAX_BODY || frame[0] % 32 in {1, 5, 6, 7, 8}
    ensures Content(frame) == [] <==> |frame| <= MAX_BODY && frame[0] % 32 !in {1, 5, 6, 7, 8, FU_A}
  {
    assert [] + START_CODE + frame == START_CODE + frame;
    if |frame| <= MAX_BODY && frame[0] % 32 == FU_A {
      assert |Content(frame)| == |frame| + 3;
    }
  }

  lemma HeaderFields(marker: bool, m: Mux, rest: seq<byte>)
    requires m.Valid()
    ensures var p := RtpHeader(marker, m.seqNo, m.timestamp, m.ssrc) + rest;
            && LoadBe16(p[2..4]) == m.seqNo && LoadBe32(p[4..8]) == m.timestamp && LoadBe32(p[8..12]) == m.ssrc
            && p[12..] == rest
  {
    hide Be16, Be32, LoadBe16, LoadBe32;
    var p := RtpHeader(marker, m.seqNo, m.timestamp, m.ssrc) + rest;
    assert p[2..4] == Be16(m.seqNo) && p[4..8] == Be32(m.timestamp) && p[8..12] == Be32(m.ssrc);
    Be16RoundTrip(m.seqNo);
    Be32RoundTrip(m.timestamp);
    Be32RoundTrip(m.ssrc);
  }

  /** The depacketiser holds nothing, or the frame that was sent just before `m`. */
  predicate Holds(d: Demux, content: seq<byte>, timestamp: nat, ssrc: nat) {
    d.buffer == content && (content != [] ==> d.timestamp == timestamp && d.ssrc == ssrc)
  }

  /** The callback due for a finished frame. */
  function Due(content: seq<byte>, timestamp: nat, ssrc: nat): seq<Call> {
    if content == [] then [] else [Call(content, timestamp, ssrc)]
  }

  /** The time stamp of the frame before. */
  function Before(m: Mux): nat
    requires m.Valid()
  {
    (m.timestamp - TICK) % TWO32
  }

  /** Also across the wrap-around of the time stamp, the next frame is newer. */
  lemma NextIsNewer(m: Mux)
    requires m.Valid()
    ensures Newer(Before(m), m.timestamp)
  {
  }

  /** The first packet of a frame hands over the frame before and starts a new one. */
  lemma FirstPacket(d: Demux, content: seq<byte>, m: Mux, marker: bool, payload: seq<byte>)
    requires m.Valid() && |payload| >= 2 && Holds(d, content, Before(m), m.ssrc)
    ensures OnPacket(d, RtpHeader(marker, m.seqNo, m.timestamp, m.ssrc) + payload) ==
            (Demux(Append([], payload), m.timestamp, m.ssrc), Due(content, Before(m), m.ssrc))
  {
    hide RtpHeader, LoadBe32, Append;
    HeaderFields(marker, m, payload);
    NextIsNewer(m);
  }

  /** A later packet of the same frame adds to it. */
  lemma LaterPacket(d: Demux, m: Mux, marker: bool, payload: seq<byte>)
    requires m.Valid() && |payload| >= 2 && d.timestamp == m.timestamp && d.ssrc == m.ssrc
    ensures OnPacket(d, RtpHeader(marker, m.seqNo, m.timestamp, m.ssrc) + payload) ==
            (d.(buffer := Append(d.buffer, payload)), [])
  {
    hide RtpHeader, LoadBe32, Append;
    HeaderFields(marker, m, payload);
  }

  lemma FragmentPayload(buffer: seq<byte>, nal: byte, first: bool, last: bool, chunk: seq<byte>)
    ensures var payload := [nal / 32 * 32 + FU_A,
                            (if first then 128 else 0) + (if last then 64 else 0) + nal % 32] + chunk;
            Append(buffer, payload) == (if buffer == [] then START_CODE + [nal] else buffer) + chunk
  {
    var payload := [nal / 32 * 32 + FU_A, (if first then 128 else 0) + (if last then 64 else 0) + nal % 32] + chunk;
    assert payload[2..] == chunk;
    FragmentBits(nal, (if first then 128 else 0) + (if last then 64 else 0));
  }

  lemma FragmentBits(nal: byte, flags: nat)
    requires flags % 32 == 0
    ensures (nal / 32 * 32 + FU_A) % 32 == FU_A && (nal / 32 * 32 + FU_A) / 32 == nal / 32
    ensures nal / 32 * 32 + (flags + nal % 32) % 32 == nal
  {
  }

  /** Any fragment of the frame that is being put together adds its bytes. */
  lemma AnyFragment(d: Demux, m: Mux, nal: byte, first: bool, last: bool, chunk: seq<byte>)
    requires m.Valid() && d.buffer != [] && d.timestamp == m.timestamp && d.ssrc == m.ssrc
    ensures OnPacket(d, Fragment(m, nal, first, last, chunk)) == (d.(buffer := d.buffer + chunk), [])
  {
    hide OnPacket, RtpHeader, Append;
    var fu: seq<byte> := [nal / 32 * 32 + FU_A, (if first then 128 else 0) + (if last then 64 else 0) + nal % 32];
    assert Fragment(m, nal, first, last, chunk) == RtpHeader(last, m.seqNo, m.timestamp, m.ssrc) + (fu + chunk);
    LaterPacket(d, m, last, fu + chunk);
    FragmentPayload(d.buffer, nal, first, last, chunk);
  }

  lemma {:induction false} LaterFragments(d: Demux, m: Mux, nal: byte, rest: seq<byte>)
    requires m.Valid() && d.buffer != [] && d.timestamp == m.timestamp && d.ssrc == m.ssrc
    ensures OnPackets(d, Fragments(m, nal, false, rest)) == (d.(buffer := d.buffer + rest), [])
    decreases |rest|
  {
    hide OnPacket, Fragment;
    var ps := Fragments(m, nal, false, rest);
    if rest == [] {
      assert d.buffer + [] == d.buffer;
    } else if |rest| <= MAX_BODY {
      AnyFragment(d, m, nal, false, true, rest);
      assert ps[1..] == [];
      assert OnPackets(d, ps).1 == [];
    } else {
      var chunk := rest[..MAX_BODY];
      AnyFragment(d, m, nal, false, false, chunk);
      assert ps[1..] == Fragments(Bump(m), nal, false, rest[MAX_BODY..]);
      LaterFragments(d.(buffer := d.buffer + chunk), Bump(m), nal, rest[MAX_BODY..]);
      assert d.buffer + chunk + rest[MAX_BODY..] == d.buffer + rest;
      assert OnPackets(d, ps).1 == [];
    }
  }

  /** All packets of a frame hand over the frame before and leave this frame's content. */
  lemma FramePackets(d: Demux, content: seq<byte>, m: Mux, frame: seq<byte>)
    requires m.Valid() && |frame| >= 2 && Holds(d, content, Before(m), m.ssrc)
    ensures var (d1, calls) := OnPackets(d, Packets(m, frame));
            calls == Due(content, Before(m), m.ssrc) && Holds(d1, Content(frame), m.timestamp, m.ssrc)
  {
    hide OnPacket, RtpHeader, Append, Due;
    var ps := Packets(m, frame);
    if |frame| <= MAX_BODY {
      FirstPacket(d, content, m, true, frame);
      assert ps[1..] == [];
      assert Due(content, Before(m), m.ssrc) + [] == Due(content, Before(m), m.ssrc);
    } else {
      var nal, rest := frame[0], frame[1..];
      var last, chunk := |rest| <= MAX_BODY, if |rest| <= MAX_BODY then rest else rest[..MAX_BODY];
      var payload := [nal / 32 * 32 + FU_A, 128 + (if last then 64 else 0) + nal % 32] + chunk;
      assert Fragment(m, nal, true, last, chunk) == RtpHeader(last, m.seqNo, m.timestamp, m.ssrc) + payload;
      FirstPacket(d, content, m, last, payload);
      FragmentPayload([], nal, true, last, chunk);
      var d1 := Demux(START_CODE + [nal] + chunk, m.timestamp, m.ssrc);
      assert Due(content, Before(m), m.ssrc) + [] == Due(content, Before(m), m.ssrc);
      if last {
        assert ps[1..] == [];
        assert START_CODE + [nal] + chunk == START_CODE + frame;
      } else {
        assert ps[1..] == Fragments(Bump(m), nal, false, rest[MAX_BODY..]);
        LaterFragments(d1, Bump(m), nal, rest[MAX_BODY..]);
        assert START_CODE + [nal] + chunk + rest[MAX_BODY..] == START_CODE + frame;
      }
    }
  }

  predicate AtLeastTwo(frames: seq<seq<byte>>) {
    frames == [] || (|frames[0]| >= 2 && AtLeastTwo(frames[1..]))
  }

  /** The callbacks due for frames sent one after the other, the frame before them included. */
  function AllDue(content: seq<byte>, m: Mux, frames: seq<seq<byte>>): seq<Call>
    requires m.Valid() && AtLeastTwo(frames)
    decreases |frames|
  {
    if frames == [] then []
    else Due(content, Before(m), m.ssrc) + AllDue(Content(frames[0]), After(m, frames[0]), frames[1..])
  }

  /** What is still held after the last frame. */
  function Pending(content: seq<byte>, frames: seq<seq<byte>>): seq<byte>
    requires AtLeastTwo(frames)
    decreases |frames|
  {
    if frames == [] then content else Pending(Content(frames[0]), frames[1..])
  }

  /**
   * Whole runs without loss: every frame is handed over one frame late, in order, with its own
   * time stamp and source, across fragmentation and time stamp wrap-around; the last one is held.
   */
  lemma {:induction false} RunRoundTrip(d: Demux, content: seq<byte>, m: Mux, frames: seq<seq<byte>>)
    requires m.Valid() && AtLeastTwo(frames) && Holds(d, content, Before(m), m.ssrc)
    ensures var (d1, calls) := OnPackets(d, RunPackets(m, frames));
            calls == AllDue(content, m, frames) && d1.buffer == Pending(content, frames)
    decreases |frames|
  {
    hide OnPackets, Packets, Content, Due;
    if frames == [] {
      NoPackets(d);
    } else {
      FramePackets(d, content, m, frames[0]);
      var (d1, calls) := OnPackets(d, Packets(m, frames[0]));
      var m1 := After(m, frames[0]);
      assert Before(m1) == m.timestamp;
      RunRoundTrip(d1, Content(frames[0]), m1, frames[1..]);
      OnPacketsConcat(d, Packets(m, frames[0]), RunPackets(m1, frames[1..]));
    }
  }

  lemma NoPackets(d: Demux)
    ensures OnPackets(d, []) == (d, [])
  {
  }

  /** Frames the depacketiser returns as they are. */
  predicate Known(frame: seq<byte>) {
    |frame| >= 2 && (|frame| > MAX_BODY || frame[0] % 32 in {1, 5, 6, 7, 8})
  }

  predicate AllKnown(frames: seq<seq<byte>>) {
    frames == [] || (Known(frames[0]) && AllKnown(frames[1..]))
  }

  function CallFrames(calls: seq<Call>): seq<seq<byte>> {
    if calls == [] then [] else [calls[0].frame] + CallFrames(calls[1..])
  }

  /** The one frame that comes back changed: it fits one packet and has the type of a fragment. */
  predicate Mangled(frame: seq<byte>) {
    2 <= |frame| <= MAX_BODY && frame[0] % 32 == FU_A
  }

  /** A frame of two bytes that does. */
  lemma MangledFrame()
    ensures Mangled([28, 0]) && Content([28, 0]) != [] && Content([28, 0]) != START_CODE + [28, 0]
  {
    ContentIff([28, 0]);
  }

  predicate NoneMangled(frames: seq<seq<byte>>) {
    frames == [] || (!Mangled(frames[0]) && NoneMangled(frames[1..]))
  }

  function KnownOnly(frames: seq<seq<byte>>): seq<seq<byte>> {
    if frames == [] then [] else (if Known(frames[0]) then [frames[0]] else []) + KnownOnly(frames[1..])
  }

  /** What is held, as a list. */
  function Held(content: seq<byte>): seq<seq<byte>> { if content == [] then [] else [content] }

  lemma {:induction false} CallFramesConcat(a: seq<Call>, b: seq<Call>)
    ensures CallFrames(a + b) == CallFrames(a) + CallFrames(b)
    decreases |a|
  {
    if a == [] {
      assert a + b == b;
    } else {
      assert (a + b)[1..] == a[1..] + b;
      CallFramesConcat(a[1..], b);
    }
  }

  lemma DueFrames(content: seq<byte>, timestamp: nat, ssrc: nat)
    ensures CallFrames(Due(content, timestamp, ssrc)) == Held(content)
  {
    var calls := Due(content, timestamp, ssrc);
    assert calls != [] ==> calls[1..] == [];
  }

  lemma HeldContent(frame: seq<byte>, rest: seq<seq<byte>>)
    requires |frame| >= 2 && !Mangled(frame)
    ensures Held(Content(frame)) + Prefixed(KnownOnly(rest)) == Prefixed(KnownOnly([frame] + rest))
  {
    hide Content;
    ContentIff(frame);
    assert ([frame] + rest)[1..] == rest;
    if Known(frame) {
      assert ([frame] + KnownOnly(rest))[1..] == KnownOnly(rest);
    } else {
      assert [] + KnownOnly(rest) == KnownOnly(rest);
    }
  }

  lemma {:induction false} FramesInOrder(content: seq<byte>, m: Mux, frames: seq<seq<byte>>)
    requires m.Valid() && AtLeastTwo(frames) && NoneMangled(frames)
    ensures CallFrames(AllDue(content, m, frames)) + Held(Pending(content, frames))
            == Held(content) + Prefixed(KnownOnly(frames))
    decreases |frames|
  {
    hide Content, Due, Held, Mangled, Known, KnownOnly, Prefixed, CallFrames;
    if frames == [] {
      NoFrames(content);
    } else {
      var f, m1 := frames[0], After(m, frames[0]);
      var head, later := Due(content, Before(m), m.ssrc), AllDue(Content(f), m1, frames[1..]);
      FramesInOrder(Content(f), m1, frames[1..]);
      CallFramesConcat(head, later);
      DueFrames(content, Before(m), m.ssrc);
      HeldContent(f, frames[1..]);
      assert frames == [f] + frames[1..];
      var last := Held(Pending(content, frames));
      assert Held(content) + CallFrames(later) + last == Held(content) + (CallFrames(later) + last);
    }
  }

  lemma NoFrames(content: seq<byte>)
    ensures CallFrames([]) + Held(content) == Held(content) + Prefixed(KnownOnly([]))
  {
  }

  lemma {:induction false} PendingIsLast(content: seq<byte>, frames: seq<seq<byte>>)
    requires frames != [] && AtLeastTwo(frames)
    ensures |frames[|frames| - 1]| >= 2 && Pending(content, frames) == Content(frames[|frames| - 1])
    decreases |frames|
  {
    hide Content;
    if |frames| > 1 {
      PendingIsLast(Content(frames[0]), frames[1..]);
    }
  }

  /**
   * Any run sent to a fresh depacketiser in which no frame is mangled: what it has called back with,
   * followed by what it holds for the last frame, are the frames it knows, in order, each behind a
   * start code; the other single-packet frames are skipped.
   */
  lemma SkippingRun(m: Mux, frames: seq<seq<byte>>)
    requires m.Valid() && frames != [] && AtLeastTwo(frames) && NoneMangled(frames)
    ensures var (d, calls) := OnPackets(Demux([], 0, 0), RunPackets(m, frames));
            CallFrames(calls) + Held(d.buffer) == Prefixed(KnownOnly(frames))
    ensures var last := frames[|frames| - 1];
            |last| >= 2 && OnPackets(Demux([], 0, 0), RunPackets(m, frames)).0.buffer == Content(last)
  {
    hide OnPackets, RunPackets, AllDue, Pending, Content, KnownOnly;
    RunRoundTrip(Demux([], 0, 0), [], m, frames);
    FramesInOrder([], m, frames);
    PendingIsLast([], frames);
    assert [] + Prefixed(KnownOnly(frames)) == Prefixed(KnownOnly(frames));
  }

  lemma {:induction false} AllKnownOnly(frames: seq<seq<byte>>)
    requires AllKnown(frames)
    ensures KnownOnly(frames) == frames && NoneMangled(frames) && AtLeastTwo(frames)
  {
    if frames != [] {
      AllKnownOnly(frames[1..]);
    }
  }

  lemma {:induction false} LastKnown(frames: seq<seq<byte>>)
    requires frames != [] && AllKnown(frames)
    ensures Known(frames[|frames| - 1])
  {
    hide Known;
    if |frames| > 1 {
      LastKnown(frames[1..]);
    }
  }

  lemma {:induction false} PrefixedSnoc(frames: seq<seq<byte>>, last: seq<byte>)
    ensures Prefixed(frames + [last]) == Prefixed(frames) + [START_CODE + last]
  {
    if frames == [] {
      assert frames + [last] == [last] && [last][1..] == [];
    } else {
      assert (frames + [last])[1..] == frames[1..] + [last];
      PrefixedSnoc(frames[1..], last);
    }
  }

  /** If all frames are fragmented or of a known type, only the last has not been called back with. */
  lemma KnownRun(m: Mux, frames: seq<seq<byte>>)
    requires m.Valid() && frames != [] && AllKnown(frames)
    ensures var (d, calls) := OnPackets(Demux([], 0, 0), RunPackets(m, frames));
            CallFrames(calls) == Prefixed(frames[..|frames| - 1]) && d.buffer == START_CODE + frames[|frames| - 1]
  {
    hide OnPackets, RunPackets, KnownOnly, Content, Known, AllKnown, CallFrames, Prefixed, NoneMangled;
    var front, last := frames[..|frames| - 1], frames[|frames| - 1];
    AllKnownOnly(frames);
    SkippingRun(m, frames);
    LastKnown(frames);
    KnownContent(last);
    assert frames == front + [last];
    PrefixedSnoc(front, last);
    var calls := OnPackets(Demux([], 0, 0), RunPackets(m, frames)).1;
    SameFront(CallFrames(calls), Prefixed(front), START_CODE + last);
  }

  lemma KnownContent(frame: seq<byte>)
    requires Known(frame)
    ensures |frame| >= 2 && Content(frame) == START_CODE + frame
  {
    ContentIff(frame);
  }

  lemma SameFront<T>(a: seq<T>, b: seq<T>, x: T)
    requires a + [x] == b + [x]
    ensures a == b
  {
    assert (a + [x])[..|a|] == a && (b + [x])[..|b|] == b && |a| == |b|;
  }

  // ---------------------------------------------------------------- lost and repeated fragments

  /** The bytes that fragment `i` of what follows the first byte of a NAL unit carries. */
  function ChunkOf(rest: seq<byte>, i: nat): (c: seq<byte>)
    requires i < FragmentCount(rest)
    ensures c != [] && (i < FragmentCount(rest) - 1 ==> |c| == MAX_BODY)
  {
    rest[MAX_BODY * i..Min(MAX_BODY * (i + 1), |rest|)]
  }

  /** Fragment `i`, but for its sequence number. */
  lemma {:induction false} FragmentAt(m: Mux, nal: byte, first: bool, rest: seq<byte>, i: nat) returns (mi: Mux)
    requires m.Valid() && i < FragmentCount(rest)
    ensures mi.Valid() && mi.timestamp == m.timestamp && mi.ssrc == m.ssrc
    ensures var ps := Fragments(m, nal, first, rest);
            ps[i] == Fragment(mi, nal, first && i == 0, i == |ps| - 1, ChunkOf(rest, i))
    decreases |rest|
  {
    hide Fragment;
    if |rest| <= MAX_BODY {
      mi := m;
      assert rest[0..|rest|] == rest;
    } else {
      var later := rest[MAX_BODY..];
      assert FragmentCount(rest) == 1 + FragmentCount(later);
      mi := FragmentAt(Bump(m), nal, false, later, if i == 0 then 0 else i - 1);
      if i == 0 {
        mi := m;
      } else {
        ChunkShift(rest, i);
      }
    }
  }

  lemma ChunkShift(rest: seq<byte>, i: nat)
    requires |rest| > MAX_BODY && 0 < i < FragmentCount(rest)
    ensures i - 1 < FragmentCount(rest[MAX_BODY..]) && ChunkOf(rest, i) == ChunkOf(rest[MAX_BODY..], i - 1)
  {
    var later, lo := rest[MAX_BODY..], MAX_BODY * (i - 1);
    assert FragmentCount(rest) == 1 + FragmentCount(later);
    assert rest[MAX_BODY..|rest|] == later;
    SliceOfSlice(rest, MAX_BODY, |rest|, lo, Min(MAX_BODY * i, |later|) - lo);
  }

  predicate Indices(js: seq<nat>, n: nat) {
    js == [] || (js[0] < n && Indices(js[1..], n))
  }

  /** The packets that arrive: any of them, in any order, any number of times. */
  function Picked(ps: seq<seq<byte>>, js: seq<nat>): seq<seq<byte>>
    requires Indices(js, |ps|)
  {
    if js == [] then [] else [ps[js[0]]] + Picked(ps, js[1..])
  }

  function PickedBytes(rest: seq<byte>, js: seq<nat>): seq<byte>
    requires Indices(js, FragmentCount(rest))
  {
    if js == [] then [] else ChunkOf(rest, js[0]) + PickedBytes(rest, js[1..])
  }

  lemma {:induction false} MoreFragments(d: Demux, m: Mux, nal: byte, rest: seq<byte>, js: seq<nat>)
    requires m.Valid() && d.buffer != [] && d.timestamp == m.timestamp && d.ssrc == m.ssrc
    requires Indices(js, FragmentCount(rest))
    ensures OnPackets(d, Picked(Fragments(m, nal, true, rest), js)) ==
            (d.(buffer := d.buffer + PickedBytes(rest, js)), [])
    decreases |js|
  {
    hide OnPacket, Fragment, Fragments, ChunkOf, FragmentCount;
    var ps := Fragments(m, nal, true, rest);
    var picked := Picked(ps, js);
    if js == [] {
      assert d.buffer + [] == d.buffer;
    } else {
      var mi := FragmentAt(m, nal, true, rest, js[0]);
      var chunk := ChunkOf(rest, js[0]);
      AnyFragment(d, mi, nal, js[0] == 0, js[0] == |ps| - 1, chunk);
      assert picked != [];
      var d1 := d.(buffer := d.buffer + chunk);
      MoreFragments(d1, m, nal, rest, js[1..]);
      assert picked[0] == ps[js[0]] && picked[1..] == Picked(ps, js[1..]);
      assert d.buffer + chunk + PickedBytes(rest, js[1..]) == d.buffer + PickedBytes(rest, js);
      var none: seq<Call> := [];
      assert OnPackets(d1, picked[1..]).1 == none && none + none == none;
      assert OnPacket(d, picked[0]) == (d1, none);
    }
  }

  /**
   * What is put together of a fragmented frame when only some of its packets arrive, in any order and
   * any number of times: the NAL unit's first byte, and the bytes of those packets as they came.
   */
  lemma SomeFragments(d: Demux, content: seq<byte>, m: Mux, frame: seq<byte>, js: seq<nat>)
    requires m.Valid() && |frame| > MAX_BODY && Holds(d, content, Before(m), m.ssrc)
    requires js != [] && Indices(js, FragmentCount(frame[1..]))
    ensures OnPackets(d, Picked(Packets(m, frame), js)) ==
            (Demux(START_CODE + [frame[0]] + PickedBytes(frame[1..], js), m.timestamp, m.ssrc),
             Due(content, Before(m), m.ssrc))
  {
    hide OnPacket, Fragment, Fragments, ChunkOf, RtpHeader, Append, Due, FragmentCount;
    var nal, rest, ps := frame[0], frame[1..], Packets(m, frame);
    var mi := FragmentAt(m, nal, true, rest, js[0]);
    var chunk := ChunkOf(rest, js[0]);
    var last := js[0] == |ps| - 1;
    FirstOfPicked(d, content, mi, nal, js[0] == 0, last, chunk);
    var d1 := Demux(START_CODE + [nal] + chunk, m.timestamp, m.ssrc);
    MoreFragments(d1, m, nal, rest, js[1..]);
    var picked := Picked(ps, js);
    assert picked[0] == ps[js[0]] && picked[1..] == Picked(ps, js[1..]);
    assert START_CODE + [nal] + chunk + PickedBytes(rest, js[1..]) == START_CODE + [nal] + PickedBytes(rest, js);
    assert Due(content, Before(m), m.ssrc) + [] == Due(content, Before(m), m.ssrc);
  }

  lemma FirstOfPicked(d: Demux, content: seq<byte>, m: Mux, nal: byte, first: bool, last: bool, chunk: seq<byte>)
    requires m.Valid() && Holds(d, content, Before(m), m.ssrc)
    ensures OnPacket(d, Fragment(m, nal, first, last, chunk)) ==
            (Demux(START_CODE + [nal] + chunk, m.timestamp, m.ssrc), Due(content, Before(m), m.ssrc))
  {
    hide OnPacket, RtpHeader, Append, Due;
    var fu: seq<byte> := [nal / 32 * 32 + FU_A, (if first then 128 else 0) + (if last then 64 else 0) + nal % 32];
    assert Fragment(m, nal, first, last, chunk) == RtpHeader(last, m.seqNo, m.timestamp, m.ssrc) + (fu + chunk);
    FirstPacket(d, content, m, last, fu + chunk);
    FragmentPayload([], nal, first, last, chunk);
  }

  // ------------------------------------------- when that is the frame

  /** The fragments from `i` on, each once. */
  function From(i: nat, n: nat): seq<nat>
    requires i <= n
    decreases n - i
  {
    if i == n then [] else [i] + From(i + 1, n)
  }

  predicate Increasing(js: seq<nat>) {
    |js| < 2 || (js[0] < js[1] && Increasing(js[1..]))
  }

  lemma {:induction false} FromIndices(i: nat, n: nat)
    requires i <= n
    ensures Indices(From(i, n), n)
    decreases n - i
  {
    if i < n {
      FromIndices(i + 1, n);
    }
  }

  lemma {:induction false} AllPicked(rest: seq<byte>, i: nat)
    requires i <= FragmentCount(rest)
    ensures Indices(From(i, FragmentCount(rest)), FragmentCount(rest))
    ensures PickedBytes(rest, From(i, FragmentCount(rest))) == rest[Min(MAX_BODY * i, |rest|)..]
    decreases FragmentCount(rest) - i
  {
    hide FragmentCount;
    var n := FragmentCount(rest);
    FromIndices(i, n);
    ChunkEnds(rest, i);
    if i < n {
      AllPicked(rest, i + 1);
      assert From(i, n)[1..] == From(i + 1, n);
    }
  }

  lemma ChunkEnds(rest: seq<byte>, i: nat)
    requires i <= FragmentCount(rest)
    ensures i == FragmentCount(rest) ==> MAX_BODY * i >= |rest|
    ensures i < FragmentCount(rest) ==>
              && MAX_BODY * i < |rest|
              && ChunkOf(rest, i) + rest[Min(MAX_BODY * (i + 1), |rest|)..] == rest[MAX_BODY * i..]
  {
  }

  /** Without repetition, what is put together is never longer than what is left from its first fragment on. */
  lemma {:induction false} LossShortens(rest: seq<byte>, js: seq<nat>, i: nat)
    requires Indices(js, FragmentCount(rest)) && Increasing(js) && i <= FragmentCount(rest) && (js != [] ==> i <= js[0])
    ensures |PickedBytes(rest, js)| <= |rest| - Min(MAX_BODY * i, |rest|)
    ensures |PickedBytes(rest, js)| == |rest| - Min(MAX_BODY * i, |rest|) <==> js == From(i, FragmentCount(rest))
    decreases FragmentCount(rest) - i
  {
    hide FragmentCount;
    var n := FragmentCount(rest);
    ChunkEnds(rest, i);
    if i < n {
      if js != [] && js[0] == i {
        LossShortens(rest, js[1..], i + 1);
        assert js == [i] + js[1..];
        assert From(i, n)[1..] == From(i + 1, n);
      } else {
        LossShortens(rest, js, i + 1);
        assert |ChunkOf(rest, i)| > 0;
        assert js == [] || js[0] != From(i, n)[0];
      }
    } else {
      assert js == [];
    }
  }

  /** Of a frame of which packets were lost and none repeated or reordered, all must have arrived. */
  lemma LossIff(frame: seq<byte>, js: seq<nat>)
    requires |frame| > MAX_BODY && Indices(js, FragmentCount(frame[1..])) && Increasing(js)
    ensures START_CODE + [frame[0]] + PickedBytes(frame[1..], js) == START_CODE + frame <==>
            js == From(0, FragmentCount(frame[1..]))
  {
    hide FragmentCount, ChunkOf, PickedBytes;
    var rest := frame[1..];
    LossShortens(rest, js, 0);
    AllPicked(rest, 0);
    assert rest[0..] == rest && START_CODE + [frame[0]] + rest == START_CODE + frame;
    var whole := START_CODE + [frame[0]] + PickedBytes(rest, js);
    assert |whole| == 5 + |PickedBytes(rest, js)|;
  }

  /** The same packets, some of them repeated: `js` in order, each as often as `counts` says. */
  function Repeated(js: seq<nat>, counts: seq<nat>): seq<nat>
    requires |js| == |counts|
  {
    if js == [] then [] else seq(counts[0], _ => js[0]) + Repeated(js[1..], counts[1..])
  }

  predicate AllOnes(counts: seq<nat>) {
    counts == [] || (counts[0] == 1 && AllOnes(counts[1..]))
  }

  predicate NoneZero(counts: seq<nat>) {
    counts == [] || (counts[0] > 0 && NoneZero(counts[1..]))
  }

  lemma {:induction false} IndicesConcat(a: seq<nat>, b: seq<nat>, n: nat)
    requires Indices(a, n) && Indices(b, n)
    ensures Indices(a + b, n)
    decreases |a|
  {
    if a == [] {
      assert a + b == b;
    } else {
      assert (a + b)[1..] == a[1..] + b;
      IndicesConcat(a[1..], b, n);
    }
  }

  lemma {:induction false} PickedConcat(rest: seq<byte>, a: seq<nat>, b: seq<nat>)
    requires Indices(a, FragmentCount(rest)) && Indices(b, FragmentCount(rest))
    ensures Indices(a + b, FragmentCount(rest))
    ensures PickedBytes(rest, a + b) == PickedBytes(rest, a) + PickedBytes(rest, b)
    decreases |a|
  {
    hide FragmentCount, ChunkOf;
    IndicesConcat(a, b, FragmentCount(rest));
    if a == [] {
      assert a + b == b;
    } else {
      assert (a + b)[1..] == a[1..] + b;
      PickedConcat(rest, a[1..], b);
    }
  }

  lemma {:induction false} OneRepeated(rest: seq<byte>, j: nat, k: nat)
    requires j < FragmentCount(rest)
    ensures var js := seq(k, _ => j); Indices(js, FragmentCount(rest))
    ensures var js := seq(k, _ => j);
            |PickedBytes(rest, js)| >= k && (k == 1 ==> PickedBytes(rest, js) == ChunkOf(rest, j))
    ensures var js := seq(k, _ => j); k > 1 ==> |PickedBytes(rest, js)| > |ChunkOf(rest, j)|
    decreases k
  {
    hide FragmentCount, ChunkOf;
    var js := seq(k, _ => j);
    if k > 0 {
      OneRepeated(rest, j, k - 1);
      assert js[1..] == seq(k - 1, _ => j);
    }
  }

  /** Nothing lost, some repeated: what is put together is longer unless nothing was. */
  lemma {:induction false} RepeatLengthens(rest: seq<byte>, js: seq<nat>, counts: seq<nat>)
    requires |js| == |counts| && Indices(js, FragmentCount(rest)) && NoneZero(counts)
    ensures Indices(Repeated(js, counts), FragmentCount(rest))
    ensures |PickedBytes(rest, Repeated(js, counts))| >= |PickedBytes(rest, js)|
    ensures |PickedBytes(rest, Repeated(js, counts))| == |PickedBytes(rest, js)| <==> AllOnes(counts)
    ensures AllOnes(counts) ==> PickedBytes(rest, Repeated(js, counts)) == PickedBytes(rest, js)
    decreases |js|
  {
    hide FragmentCount, ChunkOf;
    if js != [] {
      RepeatLengthens(rest, js[1..], counts[1..]);
      OneRepeated(rest, js[0], counts[0]);
      PickedConcat(rest, seq(counts[0], _ => js[0]), Repeated(js[1..], counts[1..]));
    }
  }

  /** Of a frame of which every packet arrived, in order, the content is right exactly if none was repeated. */
  lemma RepeatIff(frame: seq<byte>, counts: seq<nat>)
    requires |frame| > MAX_BODY && |counts| == |From(0, FragmentCount(frame[1..]))| && NoneZero(counts)
    ensures var js := Repeated(From(0, FragmentCount(frame[1..])), counts);
            && Indices(js, FragmentCount(frame[1..]))
            && (START_CODE + [frame[0]] + PickedBytes(frame[1..], js) == START_CODE + frame <==> AllOnes(counts))
  {
    hide FragmentCount, ChunkOf, PickedBytes, Repeated;
    var rest := frame[1..];
    var all := From(0, FragmentCount(rest));
    AllPicked(rest, 0);
    RepeatLengthens(rest, all, counts);
    assert rest[0..] == rest && START_CODE + [frame[0]] + rest == START_CODE + frame;
    var whole := START_CODE + [frame[0]] + PickedBytes(rest, Repeated(all, counts));
    assert |whole| == 5 + |PickedBytes(rest, Repeated(all, counts))|;
  }

  /** Loss and repetition together may go unnoticed: the second of two equal fragments in place of the first. */
  lemma LossAndRepeatCancel()
    ensures var frame := seq(1 + 2 * MAX_BODY, _ => 0);
            && |frame| > MAX_BODY && Indices([1, 1], FragmentCount(frame[1..]))
            && START_CODE + [frame[0]] + PickedBytes(frame[1..], [1, 1]) == START_CODE + frame
  {
    var frame := seq(1 + 2 * MAX_BODY, _ => 0);
    var rest := frame[1..];
    var js: seq<nat> := [1, 1];
    assert FragmentCount(rest) == 2;
    var one, none := js[1..], js[2..];
    assert js[1..][1..] == none && one == [1] && none == [];
    var c := ChunkOf(rest, 1);
    assert |c| == MAX_BODY && forall i :: 0 <= i < |c| ==> c[i] == 0;
    assert PickedBytes(rest, one) == c + PickedBytes(rest, none);
    assert PickedBytes(rest, js) == c + (c + []);
    assert c + (c + []) == rest;
  }

  // ---------------------------------------------------------------- sequence numbers

  predicate LongEnough(packets: seq<seq<byte>>) {
    forall p <- packets :: |p| >= 12
  }

  /** The sequence numbers of a list of packets. */
  function SeqNos(packets: seq<seq<byte>>): seq<nat>
    requires LongEnough(packets)
  {
    if packets == [] then []
    else assert packets[0] in packets; [LoadBe16(packets[0][2..4])] + SeqNos(packets[1..])
  }

  lemma {:induction false} ConsecutiveMod(from: nat, n: nat)
    ensures Consecutive(from % TWO16, n, TWO16) == Consecutive(from, n, TWO16)
    decreases n
  {
    if n > 0 {
      ConsecutiveMod(from + 1, n - 1);
      ConsecutiveMod(from % TWO16 + 1, n - 1);
      ModNext(from);
    }
  }

  lemma ModNext(from: nat)
    ensures (from % TWO16 + 1) % TWO16 == (from + 1) % TWO16 && from % TWO16 % TWO16 == from % TWO16
  {
  }

  lemma {:induction false} SeqNosConcat(a: seq<seq<byte>>, b: seq<seq<byte>>)
    requires LongEnough(a) && LongEnough(b)
    ensures LongEnough(a + b) && SeqNos(a + b) == SeqNos(a) + SeqNos(b)
    decreases |a|
  {
    hide LoadBe16;
    if a == [] {
      assert a + b == b;
    } else {
      assert (a + b)[1..] == a[1..] + b;
      SeqNosConcat(a[1..], b);
    }
  }

  lemma FragmentSeqNo(m: Mux, nal: byte, first: bool, last: bool, chunk: seq<byte>)
    requires m.Valid()
    ensures var p := Fragment(m, nal, first, last, chunk); |p| == 14 + |chunk| && LoadBe16(p[2..4]) == m.seqNo
  {
    hide RtpHeader, LoadBe16;
    var payload := [nal / 32 * 32 + FU_A, (if first then 128 else 0) + (if last then 64 else 0) + nal % 32] + chunk;
    assert Fragment(m, nal, first, last, chunk) == RtpHeader(last, m.seqNo, m.timestamp, m.ssrc) + payload;
    HeaderFields(last, m, payload);
  }

  lemma ConsecutiveBump(m: Mux, n: nat)
    requires m.Valid()
    ensures [m.seqNo] + Consecutive(Bump(m).seqNo, n, TWO16) == Consecutive(m.seqNo, n + 1, TWO16)
    ensures Consecutive(m.seqNo, 0, TWO16) == [] && Consecutive(m.seqNo, 1, TWO16) == [m.seqNo]
  {
    ConsecutiveMod(m.seqNo + 1, n);
    assert Consecutive(m.seqNo, 1, TWO16) == [m.seqNo] + Consecutive(m.seqNo + 1, 0, TWO16);
  }

  lemma {:induction false} FragmentsNumbered(m: Mux, nal: byte, first: bool, rest: seq<byte>)
    requires m.Valid()
    ensures var ps := Fragments(m, nal, first, rest); LongEnough(ps) && SeqNos(ps) == Consecutive(m.seqNo, |ps|, TWO16)
    decreases |rest|
  {
    hide Fragment, LoadBe16, Consecutive, Bump, SeqNos, LongEnough;
    NoNumbers(m.seqNo);
    if rest != [] {
      var k := Min(|rest|, MAX_BODY);
      var p, later := Fragment(m, nal, first, |rest| <= MAX_BODY, rest[..k]), Fragments(Bump(m), nal, false, rest[k..]);
      FragmentsStep(m, nal, first, rest);
      FragmentSeqNo(m, nal, first, |rest| <= MAX_BODY, rest[..k]);
      FragmentsNumbered(Bump(m), nal, false, rest[k..]);
      SeqNosCons(p, later);
      ConsecutiveBump(m, |later|);
    }
  }

  lemma SeqNosCons(p: seq<byte>, later: seq<seq<byte>>)
    requires |p| >= 12 && LongEnough(later)
    ensures LongEnough([p] + later) && SeqNos([p] + later) == [LoadBe16(p[2..4])] + SeqNos(later)
  {
    hide LoadBe16;
    assert ([p] + later)[1..] == later;
  }

  lemma FrameNumbered(m: Mux, frame: seq<byte>)
    requires m.Valid()
    ensures var ps := Packets(m, frame); LongEnough(ps) && SeqNos(ps) == Consecutive(m.seqNo, |ps|, TWO16)
  {
    hide RtpHeader, LoadBe16, Fragments;
    if |frame| <= MAX_BODY {
      HeaderFields(true, m, frame);
      var ps := Packets(m, frame);
      assert ps[1..] == [];
    } else {
      FragmentsNumbered(m, frame[0], true, frame[1..]);
    }
  }

  /** Over a whole run the sequence numbers are consecutive modulo 2^16. */
  lemma {:induction false} RunNumbered(m: Mux, frames: seq<seq<byte>>)
    requires m.Valid()
    ensures var ps := RunPackets(m, frames); LongEnough(ps) && SeqNos(ps) == Consecutive(m.seqNo, |ps|, TWO16)
    decreases |frames|
  {
    hide Packets, SeqNos, Consecutive, LongEnough;
    if frames == [] {
      NoNumbers(m.seqNo);
    } else {
      var ps, m1 := Packets(m, frames[0]), After(m, frames[0]);
      FrameNumbered(m, frames[0]);
      RunNumbered(m1, frames[1..]);
      var later := RunPackets(m1, frames[1..]);
      SeqNosConcat(ps, later);
      ConsecutiveMod(m.seqNo + |ps|, |later|);
      ConsecutiveConcat(m.seqNo, |ps|, |later|, TWO16);
    }
  }

  lemma NoNumbers(from: nat)
    ensures LongEnough([]) && SeqNos([]) == [] == Consecutive(from, 0, TWO16)
  {
  }

  // ---------------------------------------------------------------- fragmentation headers

  /** Start bit, end bit and marker of a fragment, and the NAL unit's own bits. */
  predicate Flagged(p: seq<byte>, nal: byte, first: bool, last: bool) {
    && |p| >= 14
    && (p[1] >= 128 <==> last) && (p[13] >= 128 <==> first) && (p[13] / 64 % 2 == 1 <==> last)
    && p[12] % 32 == FU_A && p[12] / 32 == nal / 32 && p[13] % 32 == nal % 32
  }

  lemma FragmentFlagged(m: Mux, nal: byte, first: bool, last: bool, chunk: seq<byte>)
    ensures Flagged(Fragment(m, nal, first, last, chunk), nal, first, last)
  {
    hide Be16, Be32;
    var h := RtpHeader(last, m.seqNo, m.timestamp, m.ssrc);
    var p := Fragment(m, nal, first, last, chunk);
    assert p[1] == h[1] == (if last then 128 else 0) + 96;
  }

  /** Only the first fragment of a frame is marked as its start, only the last as its end. */
  lemma {:induction false} FragmentsFlagged(m: Mux, nal: byte, first: bool, rest: seq<byte>, i: nat)
    requires m.Valid() && i < |Fragments(m, nal, first, rest)|
    ensures var ps := Fragments(m, nal, first, rest); Flagged(ps[i], nal, first && i == 0, i == |ps| - 1)
    decreases |rest|
  {
    hide Fragment, Bump, Flagged;
    if |rest| <= MAX_BODY {
      FragmentFlagged(m, nal, first, true, rest);
    } else {
      FragmentFlagged(m, nal, first, false, rest[..MAX_BODY]);
      FragmentsExist(Bump(m), nal, false, rest[MAX_BODY..]);
      if i > 0 {
        FragmentsFlagged(Bump(m), nal, false, rest[MAX_BODY..], i - 1);
      }
    }
  }

  // ---------------------------------------------------------------- the objects

  const PACKET_LENGTH := 12 + 2 + MAX_BODY

  /** All packets but the last have full length. */
  lemma {:induction false} FragmentLengths(m: Mux, nal: byte, first: bool, rest: seq<byte>, i: nat)
    requires m.Valid() && i < |Fragments(m, nal, first, rest)|
    ensures i < |Fragments(m, nal, first, rest)| - 1 ==> |Fragments(m, nal, first, rest)[i]| == PACKET_LENGTH
    decreases |rest|
  {
    hide Fragment, Bump;
    if |rest| > MAX_BODY {
      FragmentSeqNo(m, nal, first, false, rest[..MAX_BODY]);
      if i > 0 {
        FragmentLengths(Bump(m), nal, false, rest[MAX_BODY..], i - 1);
      }
    }
  }

  /** A list whose members but the last have one length is cut again by arithmetic. */
  lemma {:induction false} CutByLength(ps: seq<seq<byte>>, i: nat)
    requires i < |ps| && forall k :: 0 <= k < |ps| - 1 ==> |ps[k]| == PACKET_LENGTH
    ensures PACKET_LENGTH * i + |ps[i]| <= |Flatten(ps)|
    ensures Flatten(ps)[PACKET_LENGTH * i..PACKET_LENGTH * i + |ps[i]|] == ps[i]
    decreases i
  {
    hide Flatten;
    FlattenHead(ps);
    var later := ps[1..];
    if i == 0 {
      assert (ps[0] + Flatten(later))[..|ps[0]|] == ps[0];
    } else {
      assert forall k :: 0 <= k < |later| - 1 ==> later[k] == ps[k + 1];
      assert later[i - 1] == ps[i] && |ps[0]| == PACKET_LENGTH;
      CutByLength(later, i - 1);
      SliceBehind(ps[0], Flatten(later), PACKET_LENGTH * (i - 1), |ps[i]|);
    }
  }

  lemma FlattenHead(ps: seq<seq<byte>>)
    requires ps != []
    ensures Flatten(ps) == ps[0] + Flatten(ps[1..])
  {
  }

  lemma SliceBehind(a: seq<byte>, b: seq<byte>, at: nat, n: nat)
    requires at + n <= |b|
    ensures (a + b)[|a| + at..|a| + at + n] == b[at..at + n]
  {
  }

  class Packetiser {
    var rtpBuffer: seq<byte>
    var packetCount: nat
    var lastPacketLength: nat
    var seqNo: nat
    var timestamp: nat
    const ssrc: nat

    constructor (ssrc: nat)
      requires ssrc < TWO32
      ensures State() == Mux(0, 0, ssrc) && State().Valid() && rtpBuffer == [] && packetCount == 0
    {
      this.ssrc, seqNo, timestamp := ssrc, 0, 0;
      rtpBuffer, packetCount, lastPacketLength := [], 0, 0;
    }

    ghost function State(): Mux
      reads this
    {
      Mux(seqNo, timestamp, ssrc)
    }

    /** One pass of the fragmentation loop. */
    method AppendFragment(nal: byte, last: bool, chunk: seq<byte>)
      requires State().Valid()
      modifies this`rtpBuffer, this`packetCount, this`lastPacketLength, this`seqNo
      ensures State() == Bump(old(State())) && packetCount == old(packetCount) + 1
      ensures var p := Fragment(old(State()), nal, old(packetCount) == 0, last, chunk);
              rtpBuffer == old(rtpBuffer) + p && lastPacketLength == if last then |p| else old(lastPacketLength)
    {
      hide RtpHeader;
      ghost var before := State();
      var first := packetCount == 0;
      var header := RtpHeader(last, seqNo, timestamp, ssrc);
      var fu: seq<byte> := [nal / 32 * 32 + FU_A, (if first then 128 else 0) + (if last then 64 else 0) + nal % 32];
      if last {
        lastPacketLength := 12 + 2 + |chunk|;
      }
      assert rtpBuffer + header + fu + chunk == rtpBuffer + (header + fu + chunk);
      rtpBuffer := rtpBuffer + header;
      rtpBuffer := rtpBuffer + fu;
      rtpBuffer := rtpBuffer + chunk;
      seqNo := (seqNo + 1) % TWO16;
      packetCount := packetCount + 1;
    }

    /** The fragmentation loop. */
    method AppendFragments(nal: byte, rest: seq<byte>)
      requires State().Valid() && rest != [] && rtpBuffer == [] && packetCount == 0
      modifies this`rtpBuffer, this`packetCount, this`lastPacketLength, this`seqNo
      ensures var ps := Fragments(old(State()), nal, true, rest);
              && rtpBuffer == Flatten(ps) && packetCount == |ps| > 0 && lastPacketLength == |ps[|ps| - 1]|
      ensures seqNo == (old(seqNo) + packetCount) % TWO16
    {
      hide Fragments, Fragment, Flatten, Bump;
      ghost var all := Fragments(State(), nal, true, rest);
      ghost var later := all;
      var left := rest;
      NoneBefore(all);
      FragmentsExist(State(), nal, true, rest);
      while left != []
        invariant State().Valid() && timestamp == old(timestamp) && seqNo == (old(seqNo) + packetCount) % TWO16
        invariant later == Fragments(State(), nal, packetCount == 0, left)
        invariant rtpBuffer + Flatten(later) == Flatten(all)
        invariant packetCount + |later| == |all|
        invariant later != [] ==> later == all[packetCount..]
        invariant left == [] ==> lastPacketLength == |all[|all| - 1]|
        decreases |left|
      {
        var last := |left| <= MAX_BODY;
        var k := Min(|left|, MAX_BODY);
        FragmentsStep(State(), nal, packetCount == 0, left);
        FlattenStep(rtpBuffer, later);
        Bumped(State());
        FragmentsExist(Bump(State()), nal, false, left[k..]);
        AppendFragment(nal, last, left[..k]);
        later := later[1..];
        left := left[k..];
      }
      FragmentsExist(State(), nal, packetCount == 0, left);
      NoneLeft(rtpBuffer);
    }

    /** rtpmux_h264_setframe */
    method SetFrame(frame: seq<byte>)
      requires State().Valid()
      modifies this
      ensures State().Valid() && State() == After(old(State()), frame)
      ensures var ps := Packets(old(State()), frame);
              && rtpBuffer == Flatten(ps) && packetCount == |ps| > 0 && lastPacketLength == |ps[|ps| - 1]|
    {
      hide RtpHeader, Fragments;
      rtpBuffer := [];
      if |frame| <= MAX_BODY {
        rtpBuffer := rtpBuffer + RtpHeader(true, seqNo, timestamp, ssrc);
        rtpBuffer := rtpBuffer + frame;
        packetCount := 1;
        lastPacketLength := |frame| + 12;
        seqNo := (seqNo + 1) % TWO16;
        FlattenOne(rtpBuffer);
      } else {
        packetCount := 0;
        AppendFragments(frame[0], frame[1..]);
        FragmentsExist(old(State()), frame[0], true, frame[1..]);
      }
      timestamp := (timestamp + TICK) % TWO32;
    }

    /** What a caller of rtpmux_h264_getpacket sends as packet `i`. */
    method PacketAt(i: nat, ghost m: Mux, ghost frame: seq<byte>) returns (p: seq<byte>)
      requires m.Valid() && i < packetCount
      requires var ps := Packets(m, frame);
               rtpBuffer == Flatten(ps) && packetCount == |ps| && lastPacketLength == |ps[|ps| - 1]|
      ensures p == Packets(m, frame)[i]
    {
      hide Fragments, RtpHeader, Flatten;
      if |frame| <= MAX_BODY {
        FlattenOne(Packets(m, frame)[0]);
      } else {
        forall k | 0 <= k < packetCount - 1
          ensures |Packets(m, frame)[k]| == PACKET_LENGTH
        {
          FragmentLengths(m, frame[0], true, frame[1..], k);
        }
        CutByLength(Packets(m, frame), i);
      }
      var len := if i == packetCount - 1 then lastPacketLength else PACKET_LENGTH;
      p := rtpBuffer[i * PACKET_LENGTH..i * PACKET_LENGTH + len];
    }
  }

  lemma Bumped(m: Mux)
    requires m.Valid()
    ensures Bump(m) == Mux((m.seqNo + 1) % TWO16, m.timestamp, m.ssrc)
  {
  }

  lemma NoneBefore(ps: seq<seq<byte>>)
    ensures [] + Flatten(ps) == Flatten(ps) && ps[0..] == ps
  {
  }

  lemma FragmentsStep(m: Mux, nal: byte, first: bool, rest: seq<byte>)
    requires m.Valid() && rest != []
    ensures var k := Min(|rest|, MAX_BODY);
            Fragments(m, nal, first, rest) ==
              [Fragment(m, nal, first, |rest| <= MAX_BODY, rest[..k])] + Fragments(Bump(m), nal, false, rest[k..])
  {
    hide Fragment;
    if |rest| <= MAX_BODY {
      assert rest[..|rest|] == rest;
    }
  }

  lemma FragmentsExist(m: Mux, nal: byte, first: bool, rest: seq<byte>)
    requires m.Valid()
    ensures Fragments(m, nal, first, rest) == [] <==> rest == []
  {
  }

  lemma FlattenStep(out: seq<byte>, ps: seq<seq<byte>>)
    requires ps != []
    ensures out + Flatten(ps) == out + ps[0] + Flatten(ps[1..])
  {
  }

  lemma NoneLeft(out: seq<byte>)
    ensures out + Flatten<byte>([]) == out
  {
  }

  class Depacketiser {
    var rtpBuffer: seq<byte>
    var timestamp: nat
    var ssrc: nat
    /** The callbacks made so far. */
    var calls: seq<Call>

    constructor ()
      ensures State() == Demux([], 0, 0) && calls == []
    {
      rtpBuffer, timestamp, ssrc, calls := [], 0, 0, [];
    }

    ghost function State(): Demux
      reads this
    {
      Demux(rtpBuffer, timestamp, ssrc)
    }

    /** rtpdemux_h264_setpacket: -1 for a packet that is too short or late. */
    method SetPacket(packet: seq<byte>) returns (ret: int)
      modifies this
      ensures var (d, made) := OnPacket(old(State()), packet);
              State() == d && calls == old(calls) + made
      ensures ret == if |packet| >= 14 && timestamp == LoadBe32(packet[4..8]) then 0 else -1
    {
      hide LoadBe32, Append;
      assert calls + [] == calls && rtpBuffer + [] == rtpBuffer;
      ret := -1;
      if |packet| < 14 {
        return;
      }
      var ts, src := LoadBe32(packet[4..8]), LoadBe32(packet[8..12]);
      if rtpBuffer == [] {
        timestamp, ssrc := ts, src;
      }
      if timestamp < ts || (timestamp > WRAP_CORNER && ts < WRAP_CORNER) {
        calls := calls + [Call(rtpBuffer, timestamp, ssrc)];
        rtpBuffer := [];
        timestamp, ssrc := ts, src;
      }
      if timestamp != ts {
        return;
      }
      AddPayload(packet[12..]);
      ret := 0;
    }

    /** What a packet's payload adds. */
    method AddPayload(payload: seq<byte>)
      requires |payload| >= 2
      modifies this`rtpBuffer
      ensures rtpBuffer == Append(old(rtpBuffer), payload)
    {
      var kind := payload[0] % 32;
      if kind in {1, 5, 6, 7, 8} {
        rtpBuffer := rtpBuffer + START_CODE;
        rtpBuffer := rtpBuffer + payload;
      } else if kind == FU_A {
        if rtpBuffer == [] {
          rtpBuffer := START_CODE;
          rtpBuffer := rtpBuffer + [payload[0] / 32 * 32 + payload[1] % 32];
        }
        rtpBuffer := rtpBuffer + payload[2..];
      }
    }
  }
}
