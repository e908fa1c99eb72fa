/** What every run of the multiplexer keeps: packet framing, payload conservation, continuity. */
module TsContinuity {
  import opened Bytes
  import opened Pes
  import opened TsMux
  import opened TsDemux
  import opened TsRoundTrip

  // ---------------------------------------------------------------- payload conservation

  /** The payloads of a list of packets, as a demultiplexer delimits them. */
  function PayloadBytes(ps: seq<seq<byte>>): seq<byte>
    requires forall p <- ps :: |p| == PACKET
  {
    if ps == [] then [] else ps[0][PayloadOffset(ps[0])..] + PayloadBytes(ps[1..])
  }

  lemma {:induction false} NextPayloads(stream: nat, counter: nat, payloads: seq<seq<byte>>)
    requires stream < MAX_STREAM_NUM && forall p <- payloads :: |p| <= NEXT_ROOM
    ensures PayloadBytes(NextPackets(stream, counter, payloads)) == Flatten(payloads)
    decreases |payloads|
  {
    hide Packet, PayloadOffset;
    if payloads != [] {
      var ps := NextPackets(stream, counter, payloads);
      PacketLayout(StreamPid(stream), false, None, counter, payloads[0]);
      assert ps[1..] == NextPackets(stream, counter + 1, payloads[1..]);
      NextPayloads(stream, counter + 1, payloads[1..]);
    }
  }

  /** The payloads of a frame's packets, put together, are its PES packet. */
  lemma PayloadsMakePes(frame: Frame, info: ProgramInfo)
    requires Sendable(frame, info)
    ensures PayloadBytes(FramePackets(frame, info)) == PesOf(frame, info)
  {
    hide Packet, PayloadOffset, NextPackets, PesOf, Continuations;
    var pes := PesOf(frame, info);
    var ps := FramePackets(frame, info);
    PacketLayout(StreamPid(frame.stream), true, Some(frame.pts), info.streams[frame.stream].counter, FirstPayload(pes));
    var payloads := Continuations(Rest(pes));
    NextPayloads(frame.stream, info.streams[frame.stream].counter + 1, payloads);
    FlattenContinuations(Rest(pes));
    assert ps[1..] == NextPackets(frame.stream, info.streams[frame.stream].counter + 1, payloads);
    assert pes == FirstPayload(pes) + Rest(pes);
  }

  // ---------------------------------------------------------------- continuity counters

  /** The continuity counters of the packets with a given PID, in order. */
  function Counters(ps: seq<seq<byte>>, pid: nat): seq<nat>
    requires pid < 0x2000 && forall p <- ps :: |p| == PACKET
  {
    if ps == [] then []
    else if PacketPid(ps[0]) == SeenPid(pid) then [ps[0][3] % 16] + Counters(ps[1..], pid)
    else Counters(ps[1..], pid)
  }

  lemma {:induction false} CountersConcat(a: seq<seq<byte>>, b: seq<seq<byte>>, pid: nat)
    requires pid < 0x2000 && (forall p <- a :: |p| == PACKET) && (forall p <- b :: |p| == PACKET)
    ensures Counters(a + b, pid) == Counters(a, pid) + Counters(b, pid)
    decreases |a|
  {
    hide PacketPid, SeenPid;
    if a == [] {
      assert a + b == b;
    } else {
      assert (a + b)[1..] == a[1..] + b;
      CountersConcat(a[1..], b, pid);
    }
  }

  /** The PIDs in use: the tables and the streams of the program. */
  predicate Used(pid: nat, info: ProgramInfo) {
    pid == 0 || pid == PMT_PID || StreamPid(0) <= pid < StreamPid(|info.streams|)
  }

  function CounterOf(info: ProgramInfo, pid: nat): nat
    requires Used(pid, info)
  {
    if pid == 0 || pid == PMT_PID then info.patCounter else info.streams[pid - StreamPid(0)].counter
  }

  lemma SeenPidsDiffer(a: nat, b: nat)
    requires a < 0x2000 && b < 0x2000
    ensures SeenPid(a) == SeenPid(b) <==> a == b
  {
  }

  lemma CounterOfPacket(pid: nat, start: bool, pcr: Option<nat>, counter: nat, payload: seq<byte>, ask: nat)
    requires pid < 0x2000 && ask < 0x2000 && |payload| <= Room(pcr)
    ensures Counters([Packet(pid, start, pcr, counter, payload)], ask) ==
            Consecutive(counter, if ask == pid then 1 else 0, 16)
  {
    hide Packet, PacketPid, SeenPid;
    PacketLayout(pid, start, pcr, counter, payload);
    SeenPidsDiffer(pid, ask);
    var p := Packet(pid, start, pcr, counter, payload);
    var ps: seq<seq<byte>> := [p];
    assert ps[1..] == [];
    assert Counters(ps[1..], ask) == [];
  }

  lemma {:induction false} NextCounters(stream: nat, counter: nat, payloads: seq<seq<byte>>, ask: nat)
    requires stream < MAX_STREAM_NUM && ask < 0x2000 && forall p <- payloads :: |p| <= NEXT_ROOM
    ensures Counters(NextPackets(stream, counter, payloads), ask)
            == Consecutive(counter, if ask == StreamPid(stream) then |payloads| else 0, 16)
    decreases |payloads|
  {
    hide Packet, PacketPid, SeenPid, Consecutive, Counters;
    if payloads == [] {
      NoCounters(counter, ask);
    } else {
      var p := Packet(StreamPid(stream), false, None, counter, payloads[0]);
      CounterOfPacket(StreamPid(stream), false, None, counter, payloads[0], ask);
      NextCounters(stream, counter + 1, payloads[1..], ask);
      CountersConcat([p], NextPackets(stream, counter + 1, payloads[1..]), ask);
      ConsecutiveConcat(counter, 1, |payloads| - 1, 16);
      NoCounters(counter, ask);
      NoCounters(counter + 1, ask);
    }
  }

  lemma NoCounters(counter: nat, ask: nat)
    requires ask < 0x2000
    ensures Counters([], ask) == [] == Consecutive(counter, 0, 16)
  {
  }

  lemma FrameCounters(frame: Frame, info: ProgramInfo, ask: nat)
    requires Sendable(frame, info) && ask < 0x2000
    ensures Counters(FramePackets(frame, info), ask) ==
            Consecutive(info.streams[frame.stream].counter,
                        if ask == StreamPid(frame.stream) then |FramePackets(frame, info)| else 0, 16)
  {
    hide Packet, Counters, Consecutive, PesOf, NextPackets;
    var counter := info.streams[frame.stream].counter;
    var pes := PesOf(frame, info);
    var payloads := Continuations(Rest(pes));
    CounterOfPacket(StreamPid(frame.stream), true, Some(frame.pts), counter, FirstPayload(pes), ask);
    NextCounters(frame.stream, counter + 1, payloads, ask);
    CountersConcat([FirstPacket(frame, info)], NextPackets(frame.stream, counter + 1, payloads), ask);
    ConsecutiveConcat(counter, 1, |payloads|, 16);
    NoCounters(counter, ask);
    NoCounters(counter + 1, ask);
  }

  lemma TableCounters(frame: Frame, info: ProgramInfo, ask: nat)
    requires info.Valid() && ask < 0x2000
    ensures Counters(TablePackets(frame, info), ask) ==
            Consecutive(info.patCounter, if frame.key && (ask == 0 || ask == PMT_PID) then 1 else 0, 16)
  {
    hide Packet, Counters, Consecutive, PmtBody, PatBody, Section;
    NoCounters(info.patCounter, ask);
    if frame.key {
      var pat, pmt := [0] + Section(PatBody()), [0] + Section(PmtBody(info));
      SectionRoom(info);
      CounterOfPacket(0, true, None, info.patCounter, pat, ask);
      CounterOfPacket(PMT_PID, true, None, info.patCounter, pmt, ask);
      CountersConcat([PatPacket(info.patCounter)], [PmtPacket(info)], ask);
      assert TablePackets(frame, info) == [PatPacket(info.patCounter)] + [PmtPacket(info)];
    }
  }

  lemma SectionRoom(info: ProgramInfo)
    requires info.Valid()
    ensures |[0] + Section(PatBody())| <= NEXT_ROOM && |[0] + Section(PmtBody(info))| <= NEXT_ROOM
  {
  }

  lemma CallCounters(frame: Frame, info: ProgramInfo, ask: nat)
    requires Sendable(frame, info) && Used(ask, info)
    ensures var info1 := AfterFrame(frame, info);
            && CounterOf(info1, ask) >= CounterOf(info, ask)
            && Counters(Stream(frame, info), ask) ==
               Consecutive(CounterOf(info, ask), CounterOf(info1, ask) - CounterOf(info, ask), 16)
  {
    hide FramePackets, TablePackets, Counters, Consecutive;
    TableCounters(frame, info, ask);
    FrameCounters(frame, info, ask);
    CountersConcat(TablePackets(frame, info), FramePackets(frame, info), ask);
    NoCounters(info.patCounter, ask);
    NoCounters(info.streams[frame.stream].counter, ask);
    NoCounters(CounterOf(info, ask), ask);
  }

  /**
   * In every run of successful calls, on every PID in use, the continuity counter starts from the
   * counter handed in and advances by exactly 1 modulo 16 from packet to packet, across calls.
   */
  lemma {:induction false} RunCounters(frames: seq<Frame>, info: ProgramInfo, ask: nat)
    requires info.Valid() && AllFit(frames, |info.streams|) && Used(ask, info)
    ensures var info1 := RunInfo(frames, info);
            && CounterOf(info1, ask) >= CounterOf(info, ask)
            && Counters(RunPackets(frames, info), ask)
               == Consecutive(CounterOf(info, ask), CounterOf(info1, ask) - CounterOf(info, ask), 16)
    decreases |frames|
  {
    hide Stream, AfterFrame, Counters, Consecutive, CounterOf;
    if frames == [] {
      NoCounters(CounterOf(info, ask), ask);
    } else {
      var info1 := AfterFrame(frames[0], info);
      CallCounters(frames[0], info, ask);
      RunCounters(frames[1..], info1, ask);
      CountersConcat(Stream(frames[0], info), RunPackets(frames[1..], info1), ask);
      var c0, c1, c2 := CounterOf(info, ask), CounterOf(info1, ask), CounterOf(RunInfo(frames, info), ask);
      ConsecutiveConcat(c0, c1 - c0, c2 - c1, 16);
    }
  }

  /** 188 bytes, the sync byte, both adaptation field and payload, and the payload right behind the field. */
  predicate Framed(p: seq<byte>) {
    |p| == PACKET && p[0] == 0x47 && p[3] / 16 == 3 && 5 + (p[4] as int) == PayloadOffset(p)
  }

  lemma {:induction false} NextFramed(stream: nat, counter: nat, payloads: seq<seq<byte>>)
    requires stream < MAX_STREAM_NUM && forall p <- payloads :: |p| <= NEXT_ROOM
    ensures forall p <- NextPackets(stream, counter, payloads) :: Framed(p)
    decreases |payloads|
  {
    hide Packet, Framed;
    if payloads != [] {
      PacketFramed(StreamPid(stream), false, None, counter, payloads[0]);
      NextFramed(stream, counter + 1, payloads[1..]);
    }
  }

  lemma PacketFramed(pid: nat, start: bool, pcr: Option<nat>, counter: nat, payload: seq<byte>)
    requires pid < 0x2000 && |payload| <= Room(pcr)
    ensures Framed(Packet(pid, start, pcr, counter, payload))
  {
    hide Packet, PayloadOffset;
    PacketLayout(pid, start, pcr, counter, payload);
  }

  lemma CallFramed(f: Frame, info: ProgramInfo)
    requires info.Valid() && f.stream < |info.streams|
    ensures forall p <- Stream(f, info) :: Framed(p)
  {
    hide Packet, Framed, PesOf, NextPackets, Section, PatBody, PmtBody, FirstPayload;
    var pes, counter := PesOf(f, info), info.streams[f.stream].counter;
    SectionRoom(info);
    PacketFramed(0, true, None, info.patCounter, [0] + Section(PatBody()));
    PacketFramed(PMT_PID, true, None, info.patCounter, [0] + Section(PmtBody(info)));
    PacketFramed(StreamPid(f.stream), true, Some(f.pts), counter, FirstPayload(pes));
    NextFramed(f.stream, counter + 1, Continuations(Rest(pes)));
  }

  /** Framing of a whole run: the adaptation field of every packet exactly fills the gap. */
  lemma {:induction false} RunFramed(frames: seq<Frame>, info: ProgramInfo)
    requires info.Valid() && AllFit(frames, |info.streams|)
    ensures forall p <- RunPackets(frames, info) :: Framed(p)
    decreases |frames|
  {
    hide Stream, Framed, AfterFrame;
    if frames != [] {
      CallFramed(frames[0], info);
      RunFramed(frames[1..], AfterFrame(frames[0], info));
    }
  }

  lemma FramedStarts(p: seq<byte>)
    ensures Framed(p) ==> |p| == PACKET && p[0] == 0x47
  {
  }

  /** Reading the concatenated output of a run from its bytes is reading it packet by packet. */
  lemma RunDrained(d: Demux, frames: seq<Frame>, info: ProgramInfo)
    requires info.Valid() && AllFit(frames, |info.streams|)
    ensures Drain(d, Flatten(RunPackets(frames, info))) == OnPackets(d, RunPackets(frames, info))
  {
    hide Framed, RunPackets, OnPackets, Drain;
    RunFramed(frames, info);
    var ps := RunPackets(frames, info);
    forall p | p in ps
      ensures |p| == PACKET && p[0] == 0x47
    {
      FramedStarts(p);
    }
    DrainPackets(d, ps);
  }
}
