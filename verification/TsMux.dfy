/**
 * The transport stream multiplexer of file/libmpeg/tsmux.c (ISO/IEC 13818-1 section 2.4): one
 * program of one to four streams, every packet with an adaptation field that fills it up.
 */
module TsMux {
  import opened Bytes
  import opened Crc
  import opened Pes

  const PACKET := 188
  const TS_STREAM_ID := 0x0010
  const PMT_PID := 0x1001
  const FIRST_ROOM := 176
  const NEXT_ROOM := 182

  /** get_ts_stream_id, for the one program there is room for. */
  function StreamPid(stream: nat): nat { 0x0100 + stream }

  datatype StreamSpec = StreamSpec(kind: byte, counter: nat)

  datatype ProgramInfo = ProgramInfo(streams: seq<StreamSpec>, keyStream: int, patCounter: nat) {
    predicate Valid() { 1 <= |streams| <= MAX_STREAM_NUM }
  }

  datatype Frame = Frame(stream: nat, data: seq<byte>, key: bool, pts: nat)

  // ---------------------------------------------------------------- packets

  function Pcr(ts: nat): (s: seq<byte>)
    ensures |s| == 6
  {
    [ts / 0x200_0000 % 256, ts / 0x2_0000 % 256, ts / 0x200 % 256, ts / 2 % 256, ts % 2 * 128 + 0x7e, 0]
  }

  function Padding(n: nat): (s: seq<byte>)
    ensures |s| == n
  {
    seq(n, _ => 0xff)
  }

  /** How many bytes of a packet are left for the payload. */
  function Room(pcr: Option<nat>): nat { if pcr.Some? then FIRST_ROOM else NEXT_ROOM }

  /**
   * gen_ts_packet_header with the changes made to it afterwards: header, adaptation field of
   * whatever length fills the gap, payload.
   */
  function Packet(pid: nat, start: bool, pcr: Option<nat>, counter: nat, payload: seq<byte>): (p: seq<byte>)
    requires pid < 0x2000 && |payload| <= Room(pcr)
    ensures |p| == PACKET
  {
    Header(pid, start, pcr, counter, |payload|) + payload
  }

  function Header(pid: nat, start: bool, pcr: Option<nat>, counter: nat, len: nat): (h: seq<byte>)
    requires pid < 0x2000 && len <= Room(pcr)
    ensures |h| == PACKET - len
  {
    [0x47, (if start then 0x40 else 0) + pid / 256, pid % 256, 0x30 + counter % 16,
     183 - len, if pcr.Some? then 0x10 else 0]
    + (if pcr.Some? then Pcr(pcr.value) else [])
    + Padding(Room(pcr) - len)
  }

  // ---------------------------------------------------------------- tables

  /** A section followed by its CRC. */
  function Section(body: seq<byte>): seq<byte> { body + CrcBytes(Checksum(body)) }

  function PatBody(): (s: seq<byte>)
    ensures |s| == 12
  {
    [0x00, 0xB0, 13] + Be16(TS_STREAM_ID) + [0xC1, 0x00, 0x00]
    + Be16(1) + [0xE0 + PMT_PID / 256, PMT_PID % 256]
  }

  function PcrPid(info: ProgramInfo): nat {
    if 0 <= info.keyStream < |info.streams| then StreamPid(info.keyStream) else StreamPid(0)
  }

  function PmtEntry(kind: byte, stream: nat): (s: seq<byte>)
    requires stream < MAX_STREAM_NUM
    ensures |s| == 5
  {
    [kind, 0xE0 + StreamPid(stream) / 256, StreamPid(stream) % 256, 0xF0, 0x00]
  }

  function PmtEntries(streams: seq<StreamSpec>, from: nat): (s: seq<byte>)
    requires from <= |streams| <= MAX_STREAM_NUM
    ensures |s| == 5 * (|streams| - from)
    decreases |streams| - from
  {
    if from == |streams| then [] else PmtEntry(streams[from].kind, from) + PmtEntries(streams, from + 1)
  }

  function PmtBody(info: ProgramInfo): (s: seq<byte>)
    requires info.Valid()
    ensures |s| == 12 + 5 * |info.streams|
  {
    [0x02, 0xB0, 13 + 5 * |info.streams|] + Be16(1) + [0xC1, 0x00, 0x00]
    + [0xE0 + PcrPid(info) / 256, PcrPid(info) % 256, 0xF0, 0x00]
    + PmtEntries(info.streams, 0)
  }

  function PatPacket(counter: nat): (p: seq<byte>)
    ensures |p| == PACKET
  {
    Packet(0, true, None, counter, [0] + Section(PatBody()))
  }

  function PmtPacket(info: ProgramInfo): (p: seq<byte>)
    requires info.Valid()
    ensures |p| == PACKET
  {
    Packet(PMT_PID, true, None, info.patCounter, [0] + Section(PmtBody(info)))
  }

  /** Every generated section checks to zero. */
  lemma SectionsCheck(info: ProgramInfo)
    requires info.Valid()
    ensures Checksum(Section(PatBody())) == 0 && Checksum(Section(PmtBody(info))) == 0
  {
    Residue(PatBody());
    Residue(PmtBody(info));
  }

  // ---------------------------------------------------------------- frames

  /** The payloads of the packets after the first: 182 bytes each, the last one shorter. */
  function Continuations(tail: seq<byte>): (ps: seq<seq<byte>>)
    ensures |ps| == (|tail| + NEXT_ROOM - 1) / NEXT_ROOM
    ensures forall p <- ps :: 1 <= |p| <= NEXT_ROOM
  {
    if tail == [] then []
    else if |tail| <= NEXT_ROOM then [tail]
    else [tail[..NEXT_ROOM]] + Continuations(tail[NEXT_ROOM..])
  }

  function PesOf(frame: Frame, info: ProgramInfo): (pes: seq<byte>)
    requires frame.stream < |info.streams|
    ensures |pes| == HEADER_LEN + |frame.data|
  {
    MakeHeader(StreamId(info.streams[frame.stream].kind, 0, frame.stream), frame.pts, |frame.data|) + frame.data
  }

  function FirstPayload(pes: seq<byte>): (p: seq<byte>)
    ensures |p| <= FIRST_ROOM && p <= pes
  {
    if |pes| <= FIRST_ROOM then pes else pes[..FIRST_ROOM]
  }

  function Rest(pes: seq<byte>): seq<byte> { pes[|FirstPayload(pes)|..] }

  function NextPackets(stream: nat, counter: nat, payloads: seq<seq<byte>>): (ps: seq<seq<byte>>)
    requires stream < MAX_STREAM_NUM && forall p <- payloads :: |p| <= NEXT_ROOM
    ensures |ps| == |payloads| && forall p <- ps :: |p| == PACKET
    decreases |payloads|
  {
    if payloads == [] then []
    else
      [Packet(StreamPid(stream), false, None, counter, payloads[0])] + NextPackets(stream, counter + 1, payloads[1..])
  }

  function FirstPacket(frame: Frame, info: ProgramInfo): (p: seq<byte>)
    requires info.Valid() && frame.stream < |info.streams|
    ensures |p| == PACKET
  {
    Packet(StreamPid(frame.stream), true, Some(frame.pts), info.streams[frame.stream].counter,
           FirstPayload(PesOf(frame, info)))
  }

  /** gen_pes_ts_packets */
  function FramePackets(frame: Frame, info: ProgramInfo): (ps: seq<seq<byte>>)
    requires info.Valid() && frame.stream < |info.streams|
    ensures |ps| >= 1 && forall p <- ps :: |p| == PACKET
  {
    [FirstPacket(frame, info)]
    + NextPackets(frame.stream, info.streams[frame.stream].counter + 1, Continuations(Rest(PesOf(frame, info))))
  }

  function TablePackets(frame: Frame, info: ProgramInfo): (ps: seq<seq<byte>>)
    requires info.Valid()
    ensures forall p <- ps :: |p| == PACKET
  {
    if frame.key then Both(PatPacket(info.patCounter), PmtPacket(info)) else []
  }

  function Both(a: seq<byte>, b: seq<byte>): (ps: seq<seq<byte>>)
    requires |a| == PACKET && |b| == PACKET
    ensures forall p <- ps :: |p| == PACKET
  {
    [a, b]
  }

  function AfterTables(frame: Frame, info: ProgramInfo): ProgramInfo {
    if frame.key then info.(patCounter := info.patCounter + 1) else info
  }

  function AfterFrame(frame: Frame, info: ProgramInfo): (r: ProgramInfo)
    requires info.Valid() && frame.stream < |info.streams|
    ensures r.Valid() && |r.streams| == |info.streams|
  {
    var spec := info.streams[frame.stream];
    AfterTables(frame, info).(streams :=
      info.streams[frame.stream := spec.(counter := spec.counter + |FramePackets(frame, info)|)])
  }

  /** The packets of one successful call of lts_ts_stream. */
  function Stream(frame: Frame, info: ProgramInfo): (ps: seq<seq<byte>>)
    requires info.Valid() && frame.stream < |info.streams|
    ensures forall p <- ps :: |p| == PACKET
  {
    TablePackets(frame, info) + FramePackets(frame, info)
  }

  // ---------------------------------------------------------------- runs of calls

  /** The calls lts_ts_stream accepts: a stream of the program, and data. */
  predicate Sendable(frame: Frame, info: ProgramInfo) {
    info.Valid() && Fits(frame, |info.streams|)
  }

  predicate Fits(frame: Frame, streamNum: nat) {
    frame.stream < streamNum && frame.data != []
  }

  predicate AllFit(frames: seq<Frame>, streamNum: nat) {
    frames == [] || (Fits(frames[0], streamNum) && AllFit(frames[1..], streamNum))
  }

  /** All packets of a run of calls. */
  function RunPackets(frames: seq<Frame>, info: ProgramInfo): (ps: seq<seq<byte>>)
    requires info.Valid() && AllFit(frames, |info.streams|)
    ensures forall p <- ps :: |p| == PACKET
    decreases |frames|
  {
    if frames == [] then []
    else Stream(frames[0], info) + RunPackets(frames[1..], AfterFrame(frames[0], info))
  }

  function RunInfo(frames: seq<Frame>, info: ProgramInfo): (r: ProgramInfo)
    requires info.Valid() && AllFit(frames, |info.streams|)
    ensures r.Valid() && |r.streams| == |info.streams|
    decreases |frames|
  {
    if frames == [] then info else RunInfo(frames[1..], AfterFrame(frames[0], info))
  }
}
