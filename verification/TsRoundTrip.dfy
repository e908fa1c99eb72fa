/** Demultiplexing what the multiplexer made, over whole runs. */
module TsRoundTrip {
  import opened Bytes
  import opened BitStrings
  import opened Crc
  import opened Pes
  import opened TsMux
  import opened TsDemux

  /** A PID as the demultiplexer sees it, on both sides of every comparison. */
  function SeenPid(pid: nat): nat
    requires pid < 0x2000
  {
    Signed5(pid / 256) * 256 + pid % 256
  }

  /** Where everything is in a generated packet. */
  lemma PacketLayout(pid: nat, start: bool, pcr: Option<nat>, counter: nat, payload: seq<byte>)
    requires pid < 0x2000 && |payload| <= Room(pcr)
    ensures var p := Packet(pid, start, pcr, counter, payload);
            && p[0] == 0x47 && p[3] == 0x30 + counter % 16
            && p[1] / 128 == 0 && (p[1] / 64 % 2 == 1 <==> start) && p[1] / 32 % 2 == 0
            && p[1] % 32 == pid / 256 && p[2] == pid % 256
            && PacketPid(p) == SeenPid(pid)
            && 5 + p[4] as int == PACKET - |payload|
            && PayloadOffset(p) == PACKET - |payload|
            && p[PayloadOffset(p)..] == payload
  {
    hide Pcr, Padding;
    var h := Header(pid, start, pcr, counter, |payload|);
    var p := h + payload;
    assert p[1] == h[1] && p[2] == h[2] && p[3] == h[3] && p[4] == h[4];
    StartByte(start, pid / 256);
    assert h[3] / 16 % 4 == 3;
  }

  lemma StartByte(start: bool, high: nat)
    requires high < 32
    ensures var b := (if start then 0x40 else 0) + high;
            b / 128 == 0 && (b / 64 % 2 == 1 <==> start) && b / 32 % 2 == 0 && b % 32 == high
  {
  }

  /** The reader's clock is the clock reference of a generated packet, or stays as it was. */
  lemma ClockRecovered(pid: nat, start: bool, pcr: Option<nat>, counter: nat, payload: seq<byte>, before: nat)
    requires pid < 0x2000 && |payload| <= Room(pcr)
    ensures PacketPts(Packet(pid, start, pcr, counter, payload), before) ==
            if pcr.Some? then pcr.value % TWO33 / 90 else before
  {
    hide Pcr, Padding;
    var h := Header(pid, start, pcr, counter, |payload|);
    var p := h + payload;
    assert p[3] == h[3] && p[4] == h[4] && p[5] == h[5];
    if pcr.Some? {
      var s := Pcr(pcr.value);
      assert p[6] == s[0] && p[7] == s[1] && p[8] == s[2] && p[9] == s[3] && p[10] == s[4];
      PcrDigits(pcr.value);
    }
  }

  lemma PcrDigits(ts: nat)
    ensures var s := Pcr(ts);
            (s[0] as int) * 0x200_0000 + (s[1] as int) * 0x2_0000 + (s[2] as int) * 0x200 + (s[3] as int) * 2
            + (s[4] as int) / 128 == ts % TWO33
  {
    Digits(ts, 2, 0x100);
    Digits(ts, 0x200, 0x100);
    Digits(ts, 0x2_0000, 0x100);
    Digits(ts, 0x200_0000, 0x100);
    assert (ts % 2 * 128 + 0x7e) / 128 == ts % 2;
  }

  // ---------------------------------------------------------------- tables

  function EntriesFrom(streams: seq<StreamSpec>, from: nat): (r: seq<Entry>)
    requires from <= |streams|
    ensures |r| == |streams| - from
    decreases |streams| - from
  {
    if from == |streams| then [] else [Entry(StreamPid(from), streams[from].kind)] + EntriesFrom(streams, from + 1)
  }

  /** The demultiplexer knows the program. */
  predicate Tuned(d: Demux, info: ProgramInfo) {
    d.programNum == 1 && d.pmtPid == SeenPid(PMT_PID) && d.entries == EntriesFrom(info.streams, 0)
  }

  lemma ReadPat(d: Demux, counter: nat)
    ensures OnPacket(d, PatPacket(counter)) == (d.(programNum := 1, pmtPid := SeenPid(PMT_PID)), NoPes)
  {
    hide Packet, PayloadOffset, PacketPid, CrcBytes, Checksum;
    var payload := [0] + Section(PatBody());
    PacketLayout(0, true, None, counter, payload);
    var p := PatPacket(counter);
    var at := PayloadOffset(p);
    assert at == PACKET - 17;
    assert p[at..][2] == p[at + 2] && p[at..][3] == p[at + 3] && p[at..][11] == p[at + 11] && p[at..][12] == p[at + 12];
    assert payload[2] == 0xB0 && payload[3] == 13 && payload[11] == 0xF0 && payload[12] == 0x01;
  }

  /** Entry `i` of the stream loop of a PMT. */
  lemma {:induction false} EntryBytes(streams: seq<StreamSpec>, from: nat, i: nat)
    requires from <= i < |streams| <= MAX_STREAM_NUM
    ensures PmtEntries(streams, from)[5 * (i - from)..5 * (i - from) + 5] == PmtEntry(streams[i].kind, i)
    decreases i - from
  {
    hide PmtEntry;
    var all := PmtEntries(streams, from);
    if i > from {
      EntryBytes(streams, from + 1, i);
      assert all[5..] == PmtEntries(streams, from + 1);
      assert all[5..][5 * (i - from - 1)..5 * (i - from - 1) + 5] == all[5 * (i - from)..5 * (i - from) + 5];
    }
  }

  lemma EntryInPacket(p: seq<byte>, at: nat, streams: seq<StreamSpec>, i: nat)
    requires i < |streams| <= MAX_STREAM_NUM && at + 5 * |streams| <= |p|
    requires p[at..at + 5 * |streams|] == PmtEntries(streams, 0)
    ensures var e, here := PmtEntry(streams[i].kind, i), at + 5 * i;
            p[here] == e[0] && p[here + 1] == e[1] && p[here + 2] == e[2] && p[here + 3] == e[3] && p[here + 4] == e[4]
  {
    hide PmtEntries, PmtEntry;
    EntryBytes(streams, 0, i);
    SliceOfSlice(p, at, at + 5 * |streams|, 5 * i, 5);
    var q := p[at + 5 * i..at + 5 * i + 5];
    assert q[0] == p[at + 5 * i] && q[1] == p[at + 5 * i + 1] && q[2] == p[at + 5 * i + 2] && q[3] == p[at + 5 * i + 3]
        && q[4] == p[at + 5 * i + 4];
  }

  lemma {:induction false} ReadStreams(p: seq<byte>, at: nat, streams: seq<StreamSpec>, from: nat)
    requires |p| == PACKET && from <= |streams| <= MAX_STREAM_NUM
    requires at + 5 * |streams| + 4 <= PACKET
    requires p[at..at + 5 * |streams|] == PmtEntries(streams, 0)
    ensures ReadEntries(p, at + 5 * from, at + 5 * |streams| + 4, MAX_STREAM_NUM - from) == EntriesFrom(streams, from)
    decreases |streams| - from
  {
    hide PmtEntries, Pid13, Length12, ReadEntries, StreamPid;
    var end, room := at + 5 * |streams| + 4, MAX_STREAM_NUM - from;
    if from < |streams| {
      StreamInPacket(p, at, streams, from);
      OneStream(p, at + 5 * from, end, room, from, streams[from].kind);
      ReadStreams(p, at, streams, from + 1);
    } else {
      NoStream(p, end, room);
    }
  }

  lemma StreamInPacket(p: seq<byte>, at: nat, streams: seq<StreamSpec>, i: nat)
    requires i < |streams| <= MAX_STREAM_NUM && at + 5 * |streams| <= |p|
    requires p[at..at + 5 * |streams|] == PmtEntries(streams, 0)
    ensures var here := at + 5 * i;
            && p[here] == streams[i].kind
            && Pid13(p[here + 1], p[here + 2]) == StreamPid(i) && Length12(p[here + 3], p[here + 4]) == 0
  {
    hide PmtEntries, Pid13, Length12;
    EntryInPacket(p, at, streams, i);
    EntryFields(i);
  }

  lemma NoStream(p: seq<byte>, end: nat, room: nat)
    requires |p| == PACKET && 4 <= end <= PACKET
    ensures ReadEntries(p, end - 4, end, room) == []
  {
  }

  lemma OneStream(p: seq<byte>, at: nat, end: nat, room: nat, stream: nat, kind: byte)
    requires |p| == PACKET && at + 4 < end <= PACKET && room > 0 && p[at] == kind
    requires Pid13(p[at + 1], p[at + 2]) == StreamPid(stream) && Length12(p[at + 3], p[at + 4]) == 0
    ensures ReadEntries(p, at, end, room) == [Entry(StreamPid(stream), kind)] + ReadEntries(p, at + 5, end, room - 1)
  {
    hide Pid13, Length12;
  }

  lemma EntryFields(stream: nat)
    requires stream < MAX_STREAM_NUM
    ensures Pid13(0xE0 + StreamPid(stream) / 256, StreamPid(stream) % 256) ==
            StreamPid(stream) == SeenPid(StreamPid(stream))
    ensures Length12(0xF0, 0x00) == 0
  {
    var pid := StreamPid(stream);
    assert pid / 256 == 1 && pid % 256 == stream;
    assert (0xE0 + 1) % 32 == 1;
  }

  lemma ReadPmt(d: Demux, info: ProgramInfo)
    requires info.Valid() && d.programNum == 1 && d.pmtPid == SeenPid(PMT_PID)
    ensures OnPacket(d, PmtPacket(info)) == (d.(entries := EntriesFrom(info.streams, 0)), NoPes)
  {
    hide Packet, PayloadOffset, PacketPid, Section, PmtBody, PmtEntries, EntriesFrom, ReadEntries, OnPat, OnEs;
    var n := |info.streams|;
    var payload := [0] + Section(PmtBody(info));
    PmtPayload(info);
    PacketLayout(PMT_PID, true, None, info.patCounter, payload);
    SeenPmt();
    var p := PmtPacket(info);
    PmtFields(p, PACKET - |payload|, payload, n);
    ReadStreams(p, PACKET - |payload| + 13, info.streams, 0);
  }

  /** The fields of a PMT that the reader looks at. */
  lemma PmtPayload(info: ProgramInfo)
    requires info.Valid()
    ensures var payload, n := [0] + Section(PmtBody(info)), |info.streams|;
            && |payload| == 17 + 5 * n
            && payload[2] == 0xB0 && payload[3] == 13 + 5 * n && payload[11] == 0xF0 && payload[12] == 0x00
            && payload[13..13 + 5 * n] == PmtEntries(info.streams, 0)
  {
    hide CrcBytes, Checksum, PmtEntries;
  }

  lemma PmtFields(p: seq<byte>, at: nat, payload: seq<byte>, n: nat)
    requires at <= |p| && p[at..] == payload && |payload| == 17 + 5 * n
    ensures p[at + 2] == payload[2] && p[at + 3] == payload[3] && p[at + 11] == payload[11] && p[at + 12] == payload[12]
    ensures p[at + 13..at + 13 + 5 * n] == payload[13..13 + 5 * n]
  {
    assert p[at..|p|] == payload;
    SliceOfSlice(p, at, |p|, 13, 5 * n);
  }

  // ---------------------------------------------------------------- frames

  lemma {:induction false} EntryAt(streams: seq<StreamSpec>, from: nat, i: nat)
    requires from <= i < |streams|
    ensures EntriesFrom(streams, from)[i - from] == Entry(StreamPid(i), streams[i].kind)
    decreases i - from
  {
    if i > from {
      EntryAt(streams, from + 1, i);
    }
  }

  lemma FindStream(info: ProgramInfo, stream: nat)
    requires info.Valid() && stream < |info.streams|
    ensures FindEntry(EntriesFrom(info.streams, 0), SeenPid(StreamPid(stream))) == stream
  {
    hide EntriesFrom;
    EntryFields(stream);
    EntryAt(info.streams, 0, stream);
    forall i | 0 <= i < stream ensures EntriesFrom(info.streams, 0)[i].id != StreamPid(stream) {
      EntryAt(info.streams, 0, i);
    }
  }

  /** A packet of a known stream goes to get_ts_es with exactly its payload. */
  lemma OnStreamPacket(d: Demux, info: ProgramInfo, stream: nat, start: bool,
                       pcr: Option<nat>, counter: nat, payload: seq<byte>)
    requires info.Valid() && stream < |info.streams| && Tuned(d, info) && |payload| <= Room(pcr)
    ensures var p := Packet(StreamPid(stream), start, pcr, counter, payload);
            var headLen := if d.pesHeadLen == 0 then HeadLen(payload) else d.pesHeadLen;
            var pesPts := if d.pesHeadLen == 0 && headLen > 0 then ParsedPts(payload, d.pesPts) else d.pesPts;
            var (d1, r) := OnPacket(d, p);
            && Tuned(d1, info)
            && d1.pesHeadLen == (if headLen <= |payload| then 0 else headLen - |payload|)
            && d1.pesPts == pesPts
            && r == Es(stream, if headLen <= |payload| then payload[headLen..] else [], pesPts)
  {
    hide Packet, PayloadOffset, PacketPid, HeadLen, ParsedPts, PacketPts, EntriesFrom, OnEs,
         SeenPid, FindEntry, OnPat, OnPmt;
    PacketLayout(StreamPid(stream), start, pcr, counter, payload);
    EntryFields(stream);
    SeenPmt();
    FindStream(info, stream);
    EsOutcome(d, stream, Packet(StreamPid(stream), start, pcr, counter, payload), payload);
  }

  lemma SeenPmt()
    ensures SeenPid(PMT_PID) != 0
    ensures forall stream: nat :: stream < MAX_STREAM_NUM ==> SeenPid(PMT_PID) != StreamPid(stream)
  {
  }

  lemma EsOutcome(d: Demux, stream: nat, p: seq<byte>, payload: seq<byte>)
    requires |p| == PACKET && p[PayloadOffset(p)..] == payload
    ensures var headLen := if d.pesHeadLen == 0 then HeadLen(payload) else d.pesHeadLen;
            var pesPts := if d.pesHeadLen == 0 && headLen > 0 then ParsedPts(payload, d.pesPts) else d.pesPts;
            var (d1, r) := OnEs(d, stream, p);
            && d1 == d.(pesHeadLen := if headLen <= |payload| then 0 else headLen - |payload|,
                        pesPts := pesPts, pts := d1.pts)
            && r == Es(stream, if headLen <= |payload| then payload[headLen..] else [], pesPts)
  {
    hide PayloadOffset, HeadLen, ParsedPts, PacketPts;
  }

  /** What a list of reports says about the bytes of the stream. */
  function EsBytes(rs: seq<Report>): seq<byte> {
    if rs == [] then [] else (if rs[0].Es? then rs[0].data else []) + EsBytes(rs[1..])
  }

  lemma {:induction false} EsBytesConcat(a: seq<Report>, b: seq<Report>)
    ensures EsBytes(a + b) == EsBytes(a) + EsBytes(b)
  {
    if a == [] {
      assert a + b == b;
    } else {
      assert (a + b)[1..] == a[1..] + b;
      EsBytesConcat(a[1..], b);
    }
  }

  /** No payload is taken for the start of a PES packet. */
  predicate NoLookalike(payloads: seq<seq<byte>>) {
    forall p <- payloads :: HeadLen(p) == 0
  }

  predicate AllFrom(rs: seq<Report>, stream: nat, pesPts: nat) {
    forall r <- rs :: r.Es? ==> r.stream == stream && r.pesPts == pesPts
  }

  lemma {:induction false} NextRecovered(d: Demux, info: ProgramInfo, stream: nat, counter: nat,
                                         payloads: seq<seq<byte>>)
    requires info.Valid() && stream < |info.streams| && Tuned(d, info) && d.pesHeadLen == 0
    requires (forall p <- payloads :: |p| <= NEXT_ROOM) && NoLookalike(payloads)
    ensures var (d1, rs) := OnPackets(d, NextPackets(stream, counter, payloads));
            && Tuned(d1, info) && d1.pesHeadLen == 0 && d1.pesPts == d.pesPts
            && EsBytes(rs) == Flatten(payloads) && AllFrom(rs, stream, d.pesPts)
    decreases |payloads|
  {
    hide Packet, OnPacket, HeadLen, Tuned, OnPackets, EsBytes, NextPackets, AllFrom;
    if payloads == [] {
      NothingReported(d);
      NothingFrom(d, stream, counter, d.pesPts);
    } else {
      assert HeadLen(payloads[0]) == 0 && payloads[0][0..] == payloads[0];
      OnStreamPacket(d, info, stream, false, None, counter, payloads[0]);
      var (d1, r) := OnPacket(d, Packet(StreamPid(stream), false, None, counter, payloads[0]));
      NextRecovered(d1, info, stream, counter + 1, payloads[1..]);
      ReportsCons(d, stream, counter, payloads);
      ReportsFrom(d, stream, counter, payloads, d.pesPts);
    }
  }

  lemma NothingFrom(d: Demux, stream: nat, counter: nat, pesPts: nat)
    requires stream < MAX_STREAM_NUM
    ensures NextPackets(stream, counter, []) == []
    ensures OnPackets(d, []).0 == d && AllFrom(OnPackets(d, []).1, stream, pesPts)
  {
  }

  lemma ReportsFrom(d: Demux, stream: nat, counter: nat, payloads: seq<seq<byte>>, pesPts: nat)
    requires stream < MAX_STREAM_NUM && payloads != [] && forall p <- payloads :: |p| <= NEXT_ROOM
    ensures var (d1, r) := OnPacket(d, Packet(StreamPid(stream), false, None, counter, payloads[0]));
            var (d2, rs) := OnPackets(d1, NextPackets(stream, counter + 1, payloads[1..]));
            var (d3, all) := OnPackets(d, NextPackets(stream, counter, payloads));
            && d3 == d2
            && (r.Es? && r.stream == stream && r.pesPts == pesPts && AllFrom(rs, stream, pesPts) ==>
                AllFrom(all, stream, pesPts))
  {
    hide Packet, OnPacket;
    var ps := NextPackets(stream, counter, payloads);
    assert ps[1..] == NextPackets(stream, counter + 1, payloads[1..]);
  }

  /** A packet never yields more than its payload, and less if a header was seen in it. */
  lemma {:induction false} NextLoses(d: Demux, info: ProgramInfo, stream: nat, counter: nat, payloads: seq<seq<byte>>)
    requires info.Valid() && stream < |info.streams| && Tuned(d, info)
    requires forall p <- payloads :: |p| <= NEXT_ROOM
    ensures var rs := OnPackets(d, NextPackets(stream, counter, payloads)).1;
            && |EsBytes(rs)| <= |Flatten(payloads)|
            && (d.pesHeadLen == 0 && !NoLookalike(payloads) ==> |EsBytes(rs)| < |Flatten(payloads)|)
    decreases |payloads|
  {
    hide Packet, OnPacket, Tuned, HeadLen, OnPackets, EsBytes;
    if payloads == [] {
      NothingReported(d);
    } else {
      OnStreamPacket(d, info, stream, false, None, counter, payloads[0]);
      var (d1, r) := OnPacket(d, Packet(StreamPid(stream), false, None, counter, payloads[0]));
      NextLoses(d1, info, stream, counter + 1, payloads[1..]);
      ReportsCons(d, stream, counter, payloads);
      if HeadLen(payloads[0]) == 0 && NoLookalike(payloads[1..]) {
        assert payloads == [payloads[0]] + payloads[1..];
      }
    }
  }

  lemma NothingReported(d: Demux)
    ensures EsBytes(OnPackets(d, []).1) == []
  {
  }

  lemma ReportsCons(d: Demux, stream: nat, counter: nat, payloads: seq<seq<byte>>)
    requires stream < MAX_STREAM_NUM && payloads != [] && forall p <- payloads :: |p| <= NEXT_ROOM
    ensures var (d1, r) := OnPacket(d, Packet(StreamPid(stream), false, None, counter, payloads[0]));
            EsBytes(OnPackets(d, NextPackets(stream, counter, payloads)).1) ==
              (if r.Es? then r.data else []) + EsBytes(OnPackets(d1, NextPackets(stream, counter + 1, payloads[1..])).1)
  {
    hide Packet, OnPacket;
    var ps := NextPackets(stream, counter, payloads);
    assert ps[1..] == NextPackets(stream, counter + 1, payloads[1..]);
    var (d1, r) := OnPacket(d, ps[0]);
    var rs := OnPackets(d, ps).1;
    assert rs[1..] == OnPackets(d1, ps[1..]).1;
  }

  /** The part of a frame that does not fit in its first packet. */
  function Tail(data: seq<byte>): seq<byte> { data[Min(|data|, FIRST_ROOM - HEADER_LEN)..] }

  /** No packet after the first carries nine bytes that start like a PES header. */
  predicate Plain(data: seq<byte>) { NoLookalike(Continuations(Tail(data))) }

  lemma {:induction false} FlattenContinuations(tail: seq<byte>)
    ensures Flatten(Continuations(tail)) == tail
  {
    if tail == [] {
    } else if |tail| <= NEXT_ROOM {
      FlattenOne(tail);
    } else {
      FlattenContinuations(tail[NEXT_ROOM..]);
      assert tail == tail[..NEXT_ROOM] + tail[NEXT_ROOM..];
    }
  }

  predicate MediaOnly(info: ProgramInfo) {
    info.Valid() && forall s <- info.streams :: IsVideo(s.kind) || IsAudio(s.kind)
  }

  lemma MediaId(info: ProgramInfo, stream: nat)
    requires MediaOnly(info) && stream < |info.streams|
    ensures StreamId(info.streams[stream].kind, 0, stream) >= 0x20
  {
    assert info.streams[stream] in info.streams;
  }

  lemma FirstParts(frame: Frame, info: ProgramInfo)
    requires Sendable(frame, info)
    ensures var pes := PesOf(frame, info);
            var head := frame.data[..Min(|frame.data|, FIRST_ROOM - HEADER_LEN)];
            && FirstPayload(pes) == pes[..HEADER_LEN] + head && Rest(pes) == Tail(frame.data)
            && frame.data == head + Tail(frame.data)
  {
    hide MakeHeader;
  }

  lemma FirstRecovered(d: Demux, frame: Frame, info: ProgramInfo)
    requires Sendable(frame, info) && MediaOnly(info) && Tuned(d, info) && d.pesHeadLen == 0
    ensures var (d1, r) := OnPacket(d, FirstPacket(frame, info));
            && Tuned(d1, info) && d1.pesHeadLen == 0 && d1.pesPts == frame.pts % TWO33 / 90
            && r == Es(frame.stream, frame.data[..Min(|frame.data|, FIRST_ROOM - HEADER_LEN)], frame.pts % TWO33 / 90)
  {
    hide Packet, OnPacket, Tuned, HeadLen, ParsedPts, MakeHeader, StreamId, FirstPayload;
    var id := StreamId(info.streams[frame.stream].kind, 0, frame.stream);
    var head := frame.data[..Min(|frame.data|, FIRST_ROOM - HEADER_LEN)];
    MediaId(info, frame.stream);
    ParseMade(id, frame.pts, |frame.data|, head, d.pesPts);
    FirstParts(frame, info);
    var payload := FirstPayload(PesOf(frame, info));
    assert PesOf(frame, info)[..HEADER_LEN] == MakeHeader(id, frame.pts, |frame.data|);
    assert payload == MakeHeader(id, frame.pts, |frame.data|) + head;
    assert payload[HEADER_LEN..] == head;
    OnStreamPacket(d, info, frame.stream, true, Some(frame.pts), info.streams[frame.stream].counter, payload);
  }

  /** The reports of a frame's packets say what the frame was. */
  predicate Exact(rs: seq<Report>, frame: Frame) {
    EsBytes(rs) == frame.data && AllFrom(rs, frame.stream, frame.pts % TWO33 / 90)
  }

  /** A frame comes back whole exactly if none of its later packets looks like a PES header. */
  lemma FrameRecoveredIff(d: Demux, frame: Frame, info: ProgramInfo)
    requires Sendable(frame, info) && MediaOnly(info) && Tuned(d, info) && d.pesHeadLen == 0
    ensures var (d1, rs) := OnPackets(d, FramePackets(frame, info));
            && (Exact(rs, frame) <==> Plain(frame.data))
            && (Plain(frame.data) ==> Tuned(d1, info) && d1.pesHeadLen == 0)
  {
    hide OnPacket, Tuned, NextPackets, FirstPacket, HeadLen, PesOf, FirstPayload, Continuations, MediaOnly, NoLookalike,
         Flatten, EsBytes, AllFrom;
    FirstRecovered(d, frame, info);
    FirstParts(frame, info);
    var ps := FramePackets(frame, info);
    var (d1, r) := OnPacket(d, ps[0]);
    var payloads := Continuations(Tail(frame.data));
    FlattenContinuations(Tail(frame.data));
    var counter := info.streams[frame.stream].counter + 1;
    assert ps[1..] == NextPackets(frame.stream, counter, payloads);
    var rest := OnPackets(d1, ps[1..]).1;
    assert OnPackets(d, ps) == (OnPackets(d1, ps[1..]).0, [r] + rest);
    ReportCons(r, rest, frame.stream, frame.pts % TWO33 / 90);
    if Plain(frame.data) {
      NextRecovered(d1, info, frame.stream, counter, payloads);
    } else {
      NextLoses(d1, info, frame.stream, counter, payloads);
    }
  }

  lemma ReportCons(r: Report, rest: seq<Report>, stream: nat, pesPts: nat)
    requires r.Es? && r.stream == stream && r.pesPts == pesPts
    ensures EsBytes([r] + rest) == r.data + EsBytes(rest)
    ensures AllFrom([r] + rest, stream, pesPts) <==> AllFrom(rest, stream, pesPts)
  {
    assert ([r] + rest)[1..] == rest;
    assert forall x :: x in rest ==> x in [r] + rest;
  }

  // ---------------------------------------------------------------- whole runs

  /** Demultiplexing frame after frame: each frame's packets report exactly that frame. */
  predicate Recovers(d: Demux, frames: seq<Frame>, info: ProgramInfo)
    requires info.Valid() && AllFit(frames, |info.streams|)
    decreases |frames|
  {
    frames == [] ||
    (var (d1, rs) := OnPackets(d, Stream(frames[0], info));
     Exact(rs, frames[0]) && Recovers(d1, frames[1..], AfterFrame(frames[0], info)))
  }

  lemma KindsKept(frame: Frame, info: ProgramInfo)
    requires Sendable(frame, info)
    ensures var info1 := AfterFrame(frame, info);
            && (forall d :: Tuned(d, info) ==> Tuned(d, info1))
            && (MediaOnly(info) ==> MediaOnly(info1))
            && |info1.streams| == |info.streams|
  {
    hide FramePackets;
    var info1 := AfterFrame(frame, info);
    assert forall i :: 0 <= i < |info.streams| ==> info1.streams[i].kind == info.streams[i].kind;
    SameKinds(info.streams, info1.streams, 0);
    if MediaOnly(info) {
      forall i | 0 <= i < |info1.streams| ensures IsVideo(info1.streams[i].kind) || IsAudio(info1.streams[i].kind) {
        assert info.streams[i] in info.streams;
      }
    }
  }

  lemma {:induction false} SameKinds(a: seq<StreamSpec>, b: seq<StreamSpec>, from: nat)
    requires |a| == |b| && from <= |a| && forall i :: 0 <= i < |a| ==> a[i].kind == b[i].kind
    ensures EntriesFrom(a, from) == EntriesFrom(b, from)
    decreases |a| - from
  {
    if from < |a| {
      SameKinds(a, b, from + 1);
    }
  }

  /** A key frame starts with the tables, and they tune the demultiplexer whatever it knew before. */
  lemma TablesTune(d: Demux, frame: Frame, info: ProgramInfo)
    requires info.Valid() && (frame.key || Tuned(d, info))
    ensures var (d1, rs) := OnPackets(d, TablePackets(frame, info));
            && Tuned(d1, info) && d1.pesHeadLen == d.pesHeadLen
            && forall i :: 0 <= i < |rs| ==> rs[i] == NoPes
  {
    hide OnPacket, PatPacket, PmtPacket, SeenPid, EntriesFrom;
    if frame.key {
      ReadPat(d, info.patCounter);
      var d1 := d.(programNum := 1, pmtPid := SeenPid(PMT_PID));
      ReadPmt(d1, info);
      OnPacketsTwo(d, PatPacket(info.patCounter), PmtPacket(info));
    }
  }

  lemma OnPacketsTwo(d: Demux, p: seq<byte>, q: seq<byte>)
    requires |p| == PACKET && |q| == PACKET
    ensures var (d1, r) := OnPacket(d, p);
            var (d2, t) := OnPacket(d1, q);
            OnPackets(d, [p, q]) == (d2, [r, t])
  {
    hide OnPacket;
    var (d1, r) := OnPacket(d, p);
    var (d2, t) := OnPacket(d1, q);
    var none: seq<seq<byte>> := [];
    assert OnPackets(d2, none) == (d2, []);
    assert [q][1..] == none && [p, q][1..] == [q];
    assert OnPackets(d1, [q]) == (d2, [t] + []);
    assert [t] + [] == [t];
    assert OnPackets(d, [p, q]) == (d2, [r] + [t]);
    assert [r] + [t] == [r, t];
  }

  lemma {:induction false} NoBytes(rs: seq<Report>)
    requires forall i :: 0 <= i < |rs| ==> rs[i] == NoPes
    ensures EsBytes(rs) == []
  {
    if rs != [] {
      NoBytes(rs[1..]);
    }
  }

  lemma CallRecoveredIff(d: Demux, frame: Frame, info: ProgramInfo)
    requires Sendable(frame, info) && MediaOnly(info) && d.pesHeadLen == 0 && (frame.key || Tuned(d, info))
    ensures var (d1, rs) := OnPackets(d, Stream(frame, info));
            && (Exact(rs, frame) <==> Plain(frame.data))
            && (Plain(frame.data) ==> Tuned(d1, AfterFrame(frame, info)) && d1.pesHeadLen == 0)
  {
    hide OnPackets, TablePackets, FramePackets, Plain, MediaOnly;
    var a, b := TablePackets(frame, info), FramePackets(frame, info);
    OnPacketsConcat(d, a, b);
    TablesTune(d, frame, info);
    var (d1, ra) := OnPackets(d, a);
    FrameRecoveredIff(d1, frame, info);
    var rb := OnPackets(d1, b).1;
    NoBytes(ra);
    EsBytesConcat(ra, rb);
    assert [] + EsBytes(rb) == EsBytes(rb);
    KindsKept(frame, info);
  }

  lemma {:induction false} NextStaysTuned(d: Demux, info: ProgramInfo, stream: nat, counter: nat,
                                          payloads: seq<seq<byte>>)
    requires info.Valid() && stream < |info.streams| && Tuned(d, info)
    requires forall p <- payloads :: |p| <= NEXT_ROOM
    ensures Tuned(OnPackets(d, NextPackets(stream, counter, payloads)).0, info)
    decreases |payloads|
  {
    hide OnPacket, Packet, Tuned, HeadLen, ParsedPts;
    if payloads != [] {
      OnStreamPacket(d, info, stream, false, None, counter, payloads[0]);
      var ps := NextPackets(stream, counter, payloads);
      assert ps[1..] == NextPackets(stream, counter + 1, payloads[1..]);
      NextStaysTuned(OnPacket(d, ps[0]).0, info, stream, counter + 1, payloads[1..]);
    }
  }

  /** Whatever the frame holds, a call leaves the demultiplexer tuned. */
  lemma CallTunes(d: Demux, frame: Frame, info: ProgramInfo)
    requires Sendable(frame, info) && (frame.key || Tuned(d, info))
    ensures Tuned(OnPackets(d, Stream(frame, info)).0, AfterFrame(frame, info))
  {
    hide OnPackets, Tuned, TablePackets, FramePackets, AfterFrame;
    var a, b := TablePackets(frame, info), FramePackets(frame, info);
    OnPacketsConcat(d, a, b);
    TablesTune(d, frame, info);
    FrameStaysTuned(OnPackets(d, a).0, frame, info);
    KindsKept(frame, info);
  }

  lemma FrameStaysTuned(d: Demux, frame: Frame, info: ProgramInfo)
    requires Sendable(frame, info) && Tuned(d, info)
    ensures Tuned(OnPackets(d, FramePackets(frame, info)).0, info)
  {
    hide OnPacket, Packet, Tuned, HeadLen, ParsedPts, PesOf, NextPackets, Continuations, FirstPayload;
    var counter, pes := info.streams[frame.stream].counter, PesOf(frame, info);
    OnStreamPacket(d, info, frame.stream, true, Some(frame.pts), counter, FirstPayload(pes));
    var payloads, ps := Continuations(Rest(pes)), FramePackets(frame, info);
    assert ps[1..] == NextPackets(frame.stream, counter + 1, payloads);
    NextStaysTuned(OnPacket(d, ps[0]).0, info, frame.stream, counter + 1, payloads);
  }

  /** At the end of every run that starts with a key frame the program and its streams are known. */
  lemma {:induction false} RunTunes(d: Demux, frames: seq<Frame>, info: ProgramInfo)
    requires info.Valid() && AllFit(frames, |info.streams|)
    requires Tuned(d, info) || (frames != [] && frames[0].key)
    ensures Tuned(OnPackets(d, RunPackets(frames, info)).0, RunInfo(frames, info))
    decreases |frames|
  {
    hide Stream, OnPackets, Tuned, AfterFrame;
    if frames == [] {
      NoneTaken(d);
    } else {
      var info1 := AfterFrame(frames[0], info);
      CallTunes(d, frames[0], info);
      OnPacketsConcat(d, Stream(frames[0], info), RunPackets(frames[1..], info1));
      RunTunes(OnPackets(d, Stream(frames[0], info)).0, frames[1..], info1);
    }
  }

  lemma NoneTaken(d: Demux)
    ensures OnPackets(d, []) == (d, [])
  {
  }

  const LOOKALIKE: seq<byte> := Padding(157) + [0, 0, 1, 0xE0, 0, 0, 0, 0, 0]

  lemma LookalikeNotPlain()
    ensures !Plain(LOOKALIKE) && LOOKALIKE != []
  {
    var tail: seq<byte> := [0, 0, 1, 0xE0, 0, 0, 0, 0, 0];
    assert Tail(Padding(157) + tail) == tail;
    assert Continuations(tail) == [tail] && tail in [tail];
    assert HeadLen(tail) == 9;
  }

  /** A frame of 166 bytes that is not recovered, by any tuned reader: its second packet looks like a PES header. */
  lemma LookalikeFrame(d: Demux, stream: nat, key: bool, pts: nat, info: ProgramInfo)
    requires MediaOnly(info) && stream < |info.streams| && Tuned(d, info) && d.pesHeadLen == 0
    ensures var f := Frame(stream, LOOKALIKE, key, pts); !Exact(OnPackets(d, FramePackets(f, info)).1, f)
  {
    hide Plain, Exact, OnPackets, FramePackets, MediaOnly, Tuned;
    LookalikeNotPlain();
    MediaValid(info);
    FrameRecoveredIff(d, Frame(stream, LOOKALIKE, key, pts), info);
  }

  lemma MediaValid(info: ProgramInfo)
    requires MediaOnly(info)
    ensures info.Valid()
  {
  }

  /**
   * Whole runs: from a fresh demultiplexer (or any that is not inside a PES header), if the first
   * frame is a key frame and all streams are audio or video, every frame comes back exactly, with
   * its stream number and time stamp, if and only if no frame has a later packet that looks like
   * a PES header. The program and its streams are known at the end in any case.
   */
  lemma {:induction false} RunRecoveredIff(d: Demux, frames: seq<Frame>, info: ProgramInfo)
    requires MediaOnly(info) && AllFit(frames, |info.streams|) && d.pesHeadLen == 0
    requires Tuned(d, info) || (frames != [] && frames[0].key)
    ensures Recovers(d, frames, info) <==> forall f <- frames :: Plain(f.data)
    ensures Tuned(OnPackets(d, RunPackets(frames, info)).0, RunInfo(frames, info))
    decreases |frames|
  {
    hide Stream, OnPackets, Exact, Plain, Tuned, AfterFrame, EntriesFrom, RunPackets, RunInfo;
    RunTunes(d, frames, info);
    if frames != [] {
      var f := frames[0];
      CallRecoveredIff(d, f, info);
      KindsKept(f, info);
      var d1 := OnPackets(d, Stream(f, info)).0;
      var info1 := AfterFrame(f, info);
      assert frames == [f] + frames[1..];
      if Plain(f.data) {
        RunRecoveredIff(d1, frames[1..], info1);
      }
    }
  }
}
