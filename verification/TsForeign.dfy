/**
 * What the transport stream demultiplexer makes of streams another multiplexer has written: packets
 * without or with any adaptation field, tables with descriptors, PES headers of any length.
 */
module TsForeign {
  import opened Bytes
  import opened Pes
  import opened TsMux
  import opened TsDemux
  import opened TsRoundTrip

  // ---------------------------------------------------------------- packets

  /**
   * The four bytes in front: three flags, PID, scrambling, adaptation field control and counter
   * (section 2.4.3.2 of ISO/IEC 13818-1).
   */
  function Head(flags: nat, pid: nat, scrambling: nat, control: nat, counter: nat): (h: seq<byte>)
    requires flags < 8 && pid < 0x2000 && scrambling < 4 && control < 4 && counter < 16
    ensures |h| == 4
  {
    [0x47, flags * 32 + pid / 256, pid % 256, scrambling * 64 + control * 16 + counter]
  }

  lemma HeadRead(flags: nat, pid: nat, scrambling: nat, control: nat, counter: nat, p: seq<byte>)
    requires flags < 8 && pid < 0x2000 && scrambling < 4 && control < 4 && counter < 16
    requires |p| == 188 && p[..4] == Head(flags, pid, scrambling, control, counter)
    ensures PacketPid(p) == SeenPid(pid) && p[3] / 16 % 4 == control
  {
    var h := p[..4];
    assert p[1] == h[1] && p[2] == h[2] && p[3] == h[3];
    Quotient(flags * 32 + pid / 256, 32, flags, pid / 256);
    Quotient(scrambling * 64 + control * 16 + counter, 16, scrambling * 4 + control, counter);
    Quotient(scrambling * 4 + control, 4, scrambling, control);
  }

  /** Without an adaptation field the payload has 184 bytes; the clock stays. */
  lemma PlainPacket(flags: nat, pid: nat, scrambling: nat, counter: nat, payload: seq<byte>, before: nat)
    requires flags < 8 && pid < 0x2000 && scrambling < 4 && counter < 16 && |payload| == 184
    ensures var p := Head(flags, pid, scrambling, 1, counter) + payload;
            PacketPid(p) == SeenPid(pid) && p[PayloadOffset(p)..] == payload && PacketPts(p, before) == before
  {
    hide Head, PacketPid, SeenPid;
    var p := Head(flags, pid, scrambling, 1, counter) + payload;
    assert p[..4] == Head(flags, pid, scrambling, 1, counter) && p[4..] == payload;
    HeadRead(flags, pid, scrambling, 1, counter, p);
  }

  /** The clock reference in an adaptation field, in milliseconds, if it has one. */
  function FieldClock(field: seq<byte>, before: nat): nat {
    if |field| >= 7 && field[0] / 16 % 2 == 1 then
      ((field[1] as int) * 0x200_0000 + (field[2] as int) * 0x2_0000 + (field[3] as int) * 0x200
       + (field[4] as int) * 2 + (field[5] as int) / 128) / 90
    else before
  }

  /** With one, the payload follows it, whatever it holds. */
  lemma PaddedPacket(flags: nat, pid: nat, scrambling: nat, counter: nat, field: seq<byte>, payload: seq<byte>,
                     before: nat)
    requires flags < 8 && pid < 0x2000 && scrambling < 4 && counter < 16 && |field| + |payload| == 183
    requires field != [] && field[0] / 16 % 2 == 1 ==> |field| >= 7
    ensures var p := Head(flags, pid, scrambling, 3, counter) + ([|field|] + field + payload);
            && PacketPid(p) == SeenPid(pid) && p[PayloadOffset(p)..] == payload
            && PacketPts(p, before) == FieldClock(field, before)
  {
    hide Head, PacketPid, SeenPid;
    var p := Head(flags, pid, scrambling, 3, counter) + ([|field|] + field + payload);
    assert p[..4] == Head(flags, pid, scrambling, 3, counter) && p[4] == |field|;
    assert p[5..5 + |field|] == field && p[5 + |field|..] == payload;
    HeadRead(flags, pid, scrambling, 3, counter, p);
    FieldBytes(p, field);
  }

  lemma FieldBytes(p: seq<byte>, field: seq<byte>)
    requires 5 + |field| <= |p| && p[5..5 + |field|] == field
    ensures forall i :: 0 <= i < |field| ==> p[5 + i] == field[i]
  {
    forall i | 0 <= i < |field| ensures p[5 + i] == field[i] {
      assert p[5..5 + |field|][i] == p[5 + i];
    }
  }

  /** A packet that says it has no payload has none: neither control value 0 nor a field of 183 bytes. */
  lemma EmptyPacket(flags: nat, pid: nat, scrambling: nat, control: nat, counter: nat, rest: seq<byte>)
    requires flags < 8 && pid < 0x2000 && scrambling < 4 && counter < 16 && |rest| == 184
    requires control == 0 || (control == 2 && rest[0] == 183)
    ensures var p := Head(flags, pid, scrambling, control, counter) + rest; p[PayloadOffset(p)..] == []
  {
    hide Head, PacketPid, SeenPid;
    var p := Head(flags, pid, scrambling, control, counter) + rest;
    assert p[..4] == Head(flags, pid, scrambling, control, counter) && p[4] == rest[0];
    HeadRead(flags, pid, scrambling, control, counter, p);
  }

  // ---------------------------------------------------------------- tables

  /** Reserved bits, then a PID or a length. */
  function Pid16(pid: nat): (s: seq<byte>)
    requires pid < 0x2000
    ensures |s| == 2
  {
    [0xE0 + pid / 256, pid % 256]
  }

  function Length16(n: nat): (s: seq<byte>)
    requires n < 0x800
    ensures |s| == 2
  {
    [0xF0 + n / 256, n % 256]
  }

  lemma Length16Read(n: nat)
    requires n < 0x800
    ensures Length12(Length16(n)[0], Length16(n)[1]) == n && Length12(0xB0 + n / 256, n % 256) == n
  {
  }

  lemma Pid16Read(pid: nat)
    requires pid < 0x2000
    ensures Pid13(Pid16(pid)[0], Pid16(pid)[1]) == SeenPid(pid)
  {
    assert (0xE0 + pid / 256) % 32 == pid / 256;
  }

  /** A section behind a pointer field of 0: table id, length, and that many bytes, which fit the payload. */
  predicate Carries(payload: seq<byte>, section: seq<byte>) {
    && |section| >= 3 && 1 + |section| <= |payload| <= 184 && payload[0] == 0 && payload[1..1 + |section|] == section
    && section[1] == 0xB0 + (|section| - 3) / 256 && section[2] == (|section| - 3) % 256
  }

  lemma CarriedAt(p: seq<byte>, payload: seq<byte>, section: seq<byte>, i: nat)
    requires |p| == 188 && p[PayloadOffset(p)..] == payload && Carries(payload, section) && i < |section|
    ensures p[PayloadOffset(p) + 1 + i] == section[i]
  {
    hide PayloadOffset;
    var at := PayloadOffset(p);
    assert p[at..][1 + i] == p[at + 1 + i];
    assert payload[1..1 + |section|][i] == payload[1 + i];
  }

  /** A PAT of any number of programs: the reader takes the PID of the first. */
  lemma ForeignPat(d: Demux, p: seq<byte>, payload: seq<byte>, front: seq<byte>, pid: nat, rest: seq<byte>)
    requires |p| == 188 && PacketPid(p) == 0 && p[PayloadOffset(p)..] == payload && pid < 0x2000 && |front| == 10
    requires |rest| >= 4 && Carries(payload, front + Pid16(pid) + rest)
    ensures OnPacket(d, p) == (d.(programNum := 1, pmtPid := SeenPid(pid)), NoPes)
  {
    hide PayloadOffset, PacketPid, SeenPid, Length12, Pid13, Pid16, OnPmt, OnEs;
    var section := front + Pid16(pid) + rest;
    CarriedAt(p, payload, section, 1);
    CarriedAt(p, payload, section, 2);
    CarriedAt(p, payload, section, 10);
    CarriedAt(p, payload, section, 11);
    assert section[10] == Pid16(pid)[0] && section[11] == Pid16(pid)[1];
    Pid16Read(pid);
    Length16Read(|section| - 3);
  }

  /** A table that says it goes on behind its packet is ignored. */
  lemma LongTableIgnored(d: Demux, p: seq<byte>, payload: seq<byte>, high: nat)
    requires |p| == 188 && p[PayloadOffset(p)..] == payload && |payload| >= 14 && high < 8
    requires PacketPid(p) == 0 || (d.programNum == 1 && PacketPid(p) == d.pmtPid)
    requires payload[2] % 16 == high && high * 256 + payload[3] + 3 > |payload| - 1
    ensures OnPacket(d, p) == (d, NoPes)
  {
    hide PayloadOffset, PacketPid, ReadEntries, OnEs;
    var at := PayloadOffset(p);
    assert p[at..][2] == p[at + 2] && p[at..][3] == p[at + 3];
  }

  /** A stream of a PMT, with its descriptors. */
  datatype Described = Described(kind: byte, pid: nat, descriptors: seq<byte>) {
    predicate Valid() { pid < 0x2000 && |descriptors| < 0x800 }
  }

  predicate AllDescribed(streams: seq<Described>) {
    forall s <- streams :: s.Valid()
  }

  function EntryBytes(s: Described): (b: seq<byte>)
    requires s.Valid()
    ensures |b| == 5 + |s.descriptors|
  {
    [s.kind] + Pid16(s.pid) + Length16(|s.descriptors|) + s.descriptors
  }

  function StreamLoop(streams: seq<Described>): seq<byte>
    requires AllDescribed(streams)
  {
    if streams == [] then [] else (assert streams[0] in streams; EntryBytes(streams[0]) + StreamLoop(streams[1..]))
  }

  /** The streams the reader has room for. */
  function Known(streams: seq<Described>, room: nat): seq<Entry>
    requires AllDescribed(streams)
    decreases |streams|
  {
    if streams == [] || room == 0 then []
    else
      assert streams[0] in streams;
      [Entry(SeenPid(streams[0].pid), streams[0].kind)] + Known(streams[1..], room - 1)
  }

  lemma {:induction false} ReadLoop(p: seq<byte>, at: nat, streams: seq<Described>, room: nat)
    requires |p| == 188 && AllDescribed(streams) && at + |StreamLoop(streams)| + 4 <= 188
    requires p[at..at + |StreamLoop(streams)|] == StreamLoop(streams)
    ensures ReadEntries(p, at, at + |StreamLoop(streams)| + 4, room) == Known(streams, room)
    decreases |streams|
  {
    hide ReadEntries, EntryBytes, SeenPid, StreamLoop, AllDescribed, Described.Valid, Pid13, Length12;
    var end := at + |StreamLoop(streams)| + 4;
    StreamLoopStep(streams);
    if streams == [] || room == 0 {
      LoopEnds(p, at, end, room);
      NoneKnown(streams, room);
    } else {
      var s, later := streams[0], streams[1..];
      var n := |EntryBytes(s)|;
      LoopSplit(p, at, EntryBytes(s), StreamLoop(later));
      EntryRead(p, at, s);
      LoopStep(p, at, end, room, s);
      ReadLoop(p, at + n, later, room - 1);
    }
  }

  lemma StreamLoopStep(streams: seq<Described>)
    requires AllDescribed(streams)
    ensures streams == [] ==> StreamLoop(streams) == []
    ensures streams != [] ==>
              && streams[0].Valid() && AllDescribed(streams[1..])
              && StreamLoop(streams) == EntryBytes(streams[0]) + StreamLoop(streams[1..])
  {
    hide EntryBytes, Described.Valid;
    if streams != [] {
      assert streams[0] in streams && forall t <- streams[1..] :: t in streams;
    }
  }

  lemma NoneKnown(streams: seq<Described>, room: nat)
    requires AllDescribed(streams) && (streams == [] || room == 0)
    ensures Known(streams, room) == []
  {
  }

  lemma LoopEnds(p: seq<byte>, at: nat, end: nat, room: nat)
    requires |p| == 188 && at <= end <= 188 && (room == 0 || end == at + 4)
    ensures ReadEntries(p, at, end, room) == []
  {
  }

  lemma LoopSplit(p: seq<byte>, at: nat, a: seq<byte>, b: seq<byte>)
    requires at + |a + b| <= |p| && p[at..at + |a + b|] == a + b
    ensures p[at..at + |a|] == a && p[at + |a|..at + |a| + |b|] == b
  {
    var s := p[at..at + |a + b|];
    assert p[at..at + |a|] == s[..|a|] && p[at + |a|..at + |a| + |b|] == s[|a|..];
  }

  lemma EntryRead(p: seq<byte>, at: nat, s: Described)
    requires s.Valid() && at + |EntryBytes(s)| <= |p| && p[at..at + |EntryBytes(s)|] == EntryBytes(s)
    ensures p[at] == s.kind && Pid13(p[at + 1], p[at + 2]) == SeenPid(s.pid)
    ensures Length12(p[at + 3], p[at + 4]) == |s.descriptors|
  {
    hide Pid13, Length12, Pid16, Length16, SeenPid;
    var e := EntryBytes(s);
    var q := p[at..at + |e|];
    assert q[0] == p[at] && q[1] == p[at + 1] && q[2] == p[at + 2] && q[3] == p[at + 3] && q[4] == p[at + 4];
    assert e[1] == Pid16(s.pid)[0] && e[2] == Pid16(s.pid)[1];
    assert e[3] == Length16(|s.descriptors|)[0] && e[4] == Length16(|s.descriptors|)[1];
    Pid16Read(s.pid);
    Length16Read(|s.descriptors|);
  }

  lemma LoopStep(p: seq<byte>, at: nat, end: nat, room: nat, s: Described)
    requires |p| == 188 && s.Valid() && at + 4 < end <= 188 && room > 0
    requires p[at] == s.kind && Pid13(p[at + 1], p[at + 2]) == SeenPid(s.pid)
    requires Length12(p[at + 3], p[at + 4]) == |s.descriptors|
    ensures ReadEntries(p, at, end, room) ==
            [Entry(SeenPid(s.pid), s.kind)] + ReadEntries(p, at + 5 + |s.descriptors|, end, room - 1)
  {
    hide Pid13, Length12, SeenPid;
  }

  /**
   * A PMT with any descriptors, for the program and for each stream: the reader learns PID and type
   * of the streams in order, of the first four of them.
   */
  lemma ForeignPmt(d: Demux, p: seq<byte>, payload: seq<byte>, front: seq<byte>, info: seq<byte>,
                   streams: seq<Described>, crc: seq<byte>)
    requires |p| == 188 && PacketPid(p) == d.pmtPid != 0 && d.programNum == 1 && p[PayloadOffset(p)..] == payload
    requires |front| == 10 && |info| < 0x800 && |crc| == 4 && AllDescribed(streams)
    requires Carries(payload, front + Length16(|info|) + info + StreamLoop(streams) + crc)
    ensures OnPacket(d, p) == (d.(entries := Known(streams, 4)), NoPes)
  {
    hide PayloadOffset, PacketPid, Length12, Length16, StreamLoop, ReadEntries, Known, OnPat, OnEs;
    var section := front + Length16(|info|) + info + StreamLoop(streams) + crc;
    var at := PayloadOffset(p);
    CarriedAt(p, payload, section, 1);
    CarriedAt(p, payload, section, 2);
    CarriedAt(p, payload, section, 10);
    CarriedAt(p, payload, section, 11);
    assert section[10] == Length16(|info|)[0] && section[11] == Length16(|info|)[1];
    Length16Read(|info|);
    Length16Read(|section| - 3);
    LoopInside(p, at, payload, section, front + Length16(|info|) + info, StreamLoop(streams), crc);
    ReadLoop(p, at + 13 + |info|, streams, 4);
  }

  lemma LoopInside(p: seq<byte>, at: nat, payload: seq<byte>, section: seq<byte>, front: seq<byte>, loop: seq<byte>,
                   crc: seq<byte>)
    requires at <= |p| && p[at..] == payload && section == front + loop + crc && 1 + |section| <= |payload|
    requires payload[1..1 + |section|] == section
    ensures p[at + 1 + |front|..at + 1 + |front| + |loop|] == loop
  {
    var lo, hi := 1 + |front|, 1 + |front| + |loop|;
    assert payload[lo..hi] == section[|front|..|front| + |loop|] by {
      SliceOfSlice(payload, 1, 1 + |section|, |front|, |loop|);
    }
    assert section[|front|..|front| + |loop|] == loop;
    assert p[at + lo..at + hi] == p[at..][lo..hi];
  }

  // ---------------------------------------------------------------- PES headers

  /** The time stamp, if the header has one and it is all there. */
  function HeaderPts(presence: byte, behind: seq<byte>, before: nat): nat {
    if presence >= 0x80 && |behind| >= 5 then
      ((behind[0] as int) / 2 % 8 * 0x4000_0000 + (behind[1] as int) * 0x40_0000 + (behind[2] as int) / 2 * 0x8000
       + (behind[3] as int) * 0x80 + (behind[4] as int) / 2) / 90
    else before
  }

  /** The first nine bytes tell all the parser needs to know. */
  lemma HeaderParsed(id: byte, length: seq<byte>, flags: byte, presence: byte, n: byte, behind: seq<byte>, before: nat)
    requires |length| == 2 && id >= 0x20
    ensures var payload := [0, 0, 1, id] + length + [flags, presence, n] + behind;
            HeadLen(payload) == 9 + n as int && ParsedPts(payload, before) == HeaderPts(presence, behind, before)
  {
    var payload := [0, 0, 1, id] + length + [flags, presence, n] + behind;
    assert payload[8] == n && payload[7] == presence && payload[9..] == behind;
    if |behind| >= 5 {
      assert payload[9..14] == behind[..5];
    }
  }

  /** Bytes of a stream are payloads with the header taken off their front. */
  function Strip(h: nat, payloads: seq<seq<byte>>): seq<byte>
    decreases |payloads|
  {
    var all := Flatten(payloads);
    if h <= |all| then all[h..] else []
  }

  /** Packets of one stream that the reader knows. */
  predicate OfStream(d: Demux, stream: nat, ps: seq<seq<byte>>, payloads: seq<seq<byte>>) {
    && |ps| == |payloads| && stream < |d.entries| && d.programNum == 1
    && forall i :: 0 <= i < |ps| ==>
         && |ps[i]| == 188 && PacketPid(ps[i]) == d.entries[stream].id
         && ps[i][PayloadOffset(ps[i])..] == payloads[i]
  }

  /** The PID of the stream is no table's, and no earlier stream has it. */
  predicate Distinct(d: Demux, stream: nat) {
    && stream < |d.entries| && d.entries[stream].id != 0 && d.entries[stream].id != d.pmtPid
    && forall i :: 0 <= i < stream ==> d.entries[i].id != d.entries[stream].id
  }

  /** No payload behind the first `h` bytes looks like a PES header. */
  predicate NoneBehind(h: nat, payloads: seq<seq<byte>>)
    decreases |payloads|
  {
    payloads == [] || ((h == 0 ==> HeadLen(payloads[0]) == 0)
                       && NoneBehind(if h <= |payloads[0]| then 0 else h - |payloads[0]|, payloads[1..]))
  }

  lemma Finds(d: Demux, stream: nat)
    requires Distinct(d, stream)
    ensures FindEntry(d.entries, d.entries[stream].id) == stream
  {
  }

  /** Once the header is known, its rest is taken off and everything behind it is reported. */
  lemma {:induction false} RestStripped(d: Demux, stream: nat, ps: seq<seq<byte>>, payloads: seq<seq<byte>>)
    requires OfStream(d, stream, ps, payloads) && Distinct(d, stream) && NoneBehind(d.pesHeadLen, payloads)
    ensures forall p <- ps :: |p| == PACKET
    ensures var (d1, rs) := OnPackets(d, ps);
            EsBytes(rs) == Strip(d.pesHeadLen, payloads) && AllFrom(rs, stream, d.pesPts)
    decreases |ps|
  {
    hide OnPacket, HeadLen, PacketPid, PayloadOffset, EsBytes, OfStream, Distinct, NoneBehind, Strip, AllFrom;
    if ps == [] {
      NothingReported(d);
      NothingStripped(d, stream, payloads);
    } else {
      FirstOfStream(d, stream, ps, payloads);
      NoneBehindStep(d.pesHeadLen, payloads);
      StreamPacket(d, stream, ps[0], payloads[0]);
      var (d1, r) := OnPacket(d, ps[0]);
      LaterOfStream(d, d1, stream, ps, payloads);
      RestStripped(d1, stream, ps[1..], payloads[1..]);
      ReportCons(r, OnPackets(d1, ps[1..]).1, stream, d.pesPts);
      StripStep(d.pesHeadLen, payloads);
    }
  }

  lemma NothingStripped(d: Demux, stream: nat, payloads: seq<seq<byte>>)
    requires OfStream(d, stream, [], payloads)
    ensures Strip(d.pesHeadLen, payloads) == [] && AllFrom([], stream, d.pesPts) && OnPackets(d, []).1 == []
  {
  }

  lemma StripStep(h: nat, payloads: seq<seq<byte>>)
    requires payloads != []
    ensures var p := payloads[0];
            Strip(h, payloads) ==
              if h <= |p| then p[h..] + Strip(0, payloads[1..]) else Strip(h - |p|, payloads[1..])
  {
    hide Flatten;
    var p, later := payloads[0], Flatten(payloads[1..]);
    FlattenFirst(payloads);
    if h <= |p| {
      assert (p + later)[h..] == p[h..] + later && later[0..] == later;
    } else if h <= |p| + |later| {
      assert (p + later)[h..] == later[h - |p|..];
    }
  }

  lemma FlattenFirst(payloads: seq<seq<byte>>)
    requires payloads != []
    ensures Flatten(payloads) == payloads[0] + Flatten(payloads[1..])
  {
  }

  /** One packet while a header is being skipped, or behind it. */
  lemma StreamPacket(d: Demux, stream: nat, p: seq<byte>, payload: seq<byte>)
    requires |p| == 188 && Distinct(d, stream) && d.programNum == 1 && PacketPid(p) == d.entries[stream].id
    requires p[PayloadOffset(p)..] == payload
    requires d.pesHeadLen == 0 ==> HeadLen(payload) == 0
    ensures var (d1, r) := OnPacket(d, p);
            var h := d.pesHeadLen;
            && d1 == d.(pesHeadLen := if h <= |payload| then 0 else h - |payload|, pts := d1.pts)
            && r == Es(stream, if h <= |payload| then payload[h..] else [], d.pesPts)
  {
    hide PacketPid, PayloadOffset, HeadLen, OnEs, OnPat, OnPmt, FindEntry;
    Finds(d, stream);
    EsOutcome(d, stream, p, payload);
  }

  /**
   * A PES packet of another writer, cut into packets anywhere behind its ninth byte: exactly what
   * follows its header is reported, even where the header itself goes on in later packets, under the
   * header's time stamp, if no later payload that begins behind the header looks like one.
   */
  lemma ForeignPes(d: Demux, stream: nat, ps: seq<seq<byte>>, payloads: seq<seq<byte>>, id: byte, length: seq<byte>,
                   flags: byte, presence: byte, n: byte, behind: seq<byte>)
    requires ps != [] && OfStream(d, stream, ps, payloads) && Distinct(d, stream) && d.pesHeadLen == 0
    requires |length| == 2 && id >= 0x20 && payloads[0] == [0, 0, 1, id] + length + [flags, presence, n] + behind
    requires NoneBehind(9 + n, payloads)
    ensures forall p <- ps :: |p| == PACKET
    ensures var (d1, rs) := OnPackets(d, ps);
            && EsBytes(rs) == Strip(9 + n, payloads)
            && AllFrom(rs, stream, HeaderPts(presence, behind, d.pesPts))
  {
    hide OnPacket, OnPackets, HeadLen, EsBytes, ParsedPts, HeaderPts, Strip, OfStream, Distinct, NoneBehind, AllFrom;
    FirstOfStream(d, stream, ps, payloads);
    HeaderParsed(id, length, flags, presence, n, behind, d.pesPts);
    PesStripped(d, stream, ps, payloads, 9 + n);
  }

  /** The same once the length of the header is known. */
  lemma PesStripped(d: Demux, stream: nat, ps: seq<seq<byte>>, payloads: seq<seq<byte>>, h: nat)
    requires ps != [] && OfStream(d, stream, ps, payloads) && Distinct(d, stream) && d.pesHeadLen == 0
    requires payloads != [] && h == HeadLen(payloads[0]) > 0 && NoneBehind(h, payloads)
    ensures |payloads[0]| >= 9 && forall p <- ps :: |p| == PACKET
    ensures var (d1, rs) := OnPackets(d, ps);
            EsBytes(rs) == Strip(h, payloads) && AllFrom(rs, stream, ParsedPts(payloads[0], d.pesPts))
  {
    hide OnPacket, HeadLen, PacketPid, PayloadOffset, EsBytes, ParsedPts, Strip, OfStream, Distinct, NoneBehind,
         AllFrom;
    HeadLong(payloads[0]);
    FirstOfStream(d, stream, ps, payloads);
    FirstOfPes(d, stream, ps[0], payloads[0]);
    var (d1, r) := OnPacket(d, ps[0]);
    LaterOfStream(d, d1, stream, ps, payloads);
    NoneBehindStep(h, payloads);
    RestStripped(d1, stream, ps[1..], payloads[1..]);
    ReportCons(r, OnPackets(d1, ps[1..]).1, stream, d1.pesPts);
    StripStep(h, payloads);
  }

  lemma FirstOfStream(d: Demux, stream: nat, ps: seq<seq<byte>>, payloads: seq<seq<byte>>)
    requires ps != [] && OfStream(d, stream, ps, payloads)
    ensures payloads != [] && d.programNum == 1 && stream < |d.entries| && forall p <- ps :: |p| == PACKET
    ensures PacketPid(ps[0]) == d.entries[stream].id && ps[0][PayloadOffset(ps[0])..] == payloads[0]
  {
    hide PacketPid, PayloadOffset;
  }

  lemma LaterOfStream(d: Demux, d1: Demux, stream: nat, ps: seq<seq<byte>>, payloads: seq<seq<byte>>)
    requires ps != [] && OfStream(d, stream, ps, payloads) && Distinct(d, stream)
    requires d1.entries == d.entries && d1.programNum == d.programNum && d1.pmtPid == d.pmtPid
    ensures payloads != [] && OfStream(d1, stream, ps[1..], payloads[1..]) && Distinct(d1, stream)
  {
    hide PacketPid, PayloadOffset;
  }

  lemma NoneBehindStep(h: nat, payloads: seq<seq<byte>>)
    requires payloads != [] && NoneBehind(h, payloads)
    ensures h == 0 ==> HeadLen(payloads[0]) == 0
    ensures NoneBehind(if h <= |payloads[0]| then 0 else h - |payloads[0]|, payloads[1..])
  {
    hide HeadLen;
  }

  lemma FirstOfPes(d: Demux, stream: nat, p: seq<byte>, payload: seq<byte>)
    requires |p| == 188 && Distinct(d, stream) && d.programNum == 1 && PacketPid(p) == d.entries[stream].id
    requires p[PayloadOffset(p)..] == payload && d.pesHeadLen == 0 && HeadLen(payload) > 0
    ensures var (d1, r) := OnPacket(d, p);
            var h := HeadLen(payload);
            && d1 == d.(pesHeadLen := if h <= |payload| then 0 else h - |payload|,
                        pesPts := ParsedPts(payload, d.pesPts), pts := d1.pts)
            && r == Es(stream, if h <= |payload| then payload[h..] else [], d1.pesPts)
  {
    hide PacketPid, PayloadOffset, HeadLen, ParsedPts, OnEs, OnPat, OnPmt, FindEntry;
    Finds(d, stream);
    HeadLong(payload);
    EsOutcome(d, stream, p, payload);
  }

  lemma HeadLong(payload: seq<byte>)
    ensures HeadLen(payload) > 0 ==> |payload| >= 9
  {
  }
}
