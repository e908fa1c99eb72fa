/** The multiplexer and demultiplexer as the objects the C code updates in place. */
module TsCodec {
  import opened Bytes
  import opened Pes
  import opened TsMux
  import opened TsDemux
  import opened TsRoundTrip

  lemma {:induction false} PacketsLength(ps: seq<seq<byte>>)
    requires forall p <- ps :: |p| == PACKET
    ensures |Flatten(ps)| == PACKET * |ps|
  {
    if ps != [] {
      PacketsLength(ps[1..]);
    }
  }

  /** How many bytes a call needs. */
  function Needed(frame: Frame, info: ProgramInfo): nat
    requires Sendable(frame, info)
  {
    PACKET * |Stream(frame, info)|
  }

  /** TsProgramInfo: the counters are kept by the caller between calls. */
  class Muxer {
    const streams: array<StreamSpec>
    const keyStream: int
    var patCounter: nat

    constructor (streams: array<StreamSpec>, keyStream: int)
      requires 1 <= streams.Length <= MAX_STREAM_NUM
      ensures this.streams == streams && this.keyStream == keyStream && patCounter == 0 && Info().Valid()
    {
      this.streams, this.keyStream, patCounter := streams, keyStream, 0;
    }

    ghost function Info(): ProgramInfo
      reads this, streams
    {
      ProgramInfo(streams[..], keyStream, patCounter)
    }

    /** One packet after the first; counts it. */
    method NextPacket(stream: nat, payload: seq<byte>) returns (p: seq<byte>)
      requires stream < streams.Length && stream < MAX_STREAM_NUM && |payload| <= NEXT_ROOM
      modifies streams
      ensures p == Packet(StreamPid(stream), false, None, old(streams[stream].counter), payload)
      ensures streams[..] == Counted(old(streams[..]), stream, 1)
    {
      p := Packet(StreamPid(stream), false, None, streams[stream].counter, payload);
      streams[stream] := streams[stream].(counter := streams[stream].counter + 1);
    }

    /** The packets after the first one, taken off the frame 182 bytes at a time. */
    method AppendRest(stream: nat, data: seq<byte>, from: nat, head: seq<byte>) returns (out: seq<byte>)
      requires Info().Valid() && stream < streams.Length && from < |data|
      modifies streams
      ensures var ps := NextPackets(stream, old(streams[stream].counter), Continuations(data[from..]));
              && out == head + Flatten(ps)
              && streams[..] == Counted(old(streams[..]), stream, |ps|)
    {
      hide Packet, NextPackets, Continuations, Flatten, RestBytes, Counted;
      ghost var c0, specs := streams[stream].counter, streams[..];
      RestBytesMeans(stream, c0, data[from..]);
      ghost var goal := head + RestBytes(stream, c0, data[from..]);
      out := head;
      var fp, i := from, 0;
      var tailLen := |data| - from;
      var packNum := (tailLen + NEXT_ROOM - 1) / NEXT_ROOM;
      CountedNone(specs, stream);
      while i < packNum
        invariant 0 <= i <= packNum && fp == from + Min(NEXT_ROOM * i, tailLen)
        invariant streams[..] == Counted(specs, stream, i)
        invariant out + RestBytes(stream, c0 + i, data[fp..]) == goal
      {
        LastPacket(tailLen, packNum, i);
        var payloadLen := NEXT_ROOM;
        if i == packNum - 1 {
          payloadLen := tailLen - i * NEXT_ROOM;
        }
        NextStep(stream, c0 + i, out, data[fp..], payloadLen);
        CutTwice(data, fp, payloadLen);
        CountedTwice(specs, stream, i, 1);
        assert streams[stream] == streams[..][stream];
        var p := NextPacket(stream, data[fp..fp + payloadLen]);
        out := out + p;
        fp := fp + payloadLen;
        i := i + 1;
      }
      LastPacket(tailLen, packNum, i);
      assert data[fp..] == [];
      NothingLeft(stream, c0 + i);
      assert out + [] == out;
    }

    /** The first packet of a frame; counts it. */
    method FirstOf(frame: Frame, payload: seq<byte>) returns (p: seq<byte>)
      requires frame.stream < streams.Length && frame.stream < MAX_STREAM_NUM && |payload| <= FIRST_ROOM
      modifies streams
      ensures p == Packet(StreamPid(frame.stream), true, Some(frame.pts), old(streams[frame.stream].counter), payload)
      ensures streams[..] == Counted(old(streams[..]), frame.stream, 1)
    {
      var spec := streams[frame.stream];
      p := Packet(StreamPid(frame.stream), true, Some(frame.pts), spec.counter, payload);
      streams[frame.stream] := spec.(counter := spec.counter + 1);
    }

    /** The branch of gen_pes_ts_packets for a frame that fits one packet. */
    method AppendSingle(frame: Frame, pes: seq<byte>, head: seq<byte>) returns (out: seq<byte>)
      requires Sendable(frame, Info()) && pes == PesOf(frame, Info()) && |pes| <= FIRST_ROOM
      modifies streams
      ensures out == head + Flatten(old(FramePackets(frame, Info())))
      ensures streams[..] == old(AfterFrame(frame, Info()).streams)
    {
      hide Packet, FramePackets, PesOf, Flatten, Counted;
      ghost var info := Info();
      FrameParts(frame, info);
      SinglePacket(frame, info);
      CountedFrame(frame, info);
      var p := FirstOf(frame, pes);
      out := head + p;
    }

    /** The branch for a frame that needs more. */
    method AppendMany(frame: Frame, pes: seq<byte>, head: seq<byte>) returns (out: seq<byte>)
      requires Sendable(frame, Info()) && pes == PesOf(frame, Info()) && |pes| > FIRST_ROOM
      modifies streams
      ensures out == head + Flatten(old(FramePackets(frame, Info())))
      ensures streams[..] == old(AfterFrame(frame, Info()).streams)
    {
      hide Packet, FramePackets, PesOf, Flatten, Counted, NextPackets, Continuations;
      ghost var info, before := Info(), streams[..];
      FrameParts(frame, info);
      CountedFrame(frame, info);
      ghost var ps := FramePackets(frame, info);
      var first := FirstOf(frame, pes[..FIRST_ROOM]);
      CountedTwice(before, frame.stream, 1, |ps| - 1);
      assert streams[frame.stream] == streams[..][frame.stream];
      out := AppendRest(frame.stream, frame.data, FIRST_ROOM - HEADER_LEN, head + first);
      assert head + first + Flatten(ps[1..]) == head + (first + Flatten(ps[1..]));
    }

    /** gen_pes_ts_packets, into a destination with `room` bytes left. */
    method AppendFrame(frame: Frame, head: seq<byte>, room: int) returns (ok: bool, out: seq<byte>)
      requires Sendable(frame, Info())
      modifies streams
      ensures ok == (room >= PACKET * |old(FramePackets(frame, Info()))|)
      ensures ok ==> out == head + Flatten(old(FramePackets(frame, Info())))
      ensures streams[..] == if ok then old(AfterFrame(frame, Info()).streams) else old(streams[..])
    {
      hide FramePackets, Packet, MakeHeader, StreamId, Flatten, AfterFrame, Continuations, NextPackets;
      FrameParts(frame, Info());
      ok, out := false, head;
      var spec := streams[frame.stream];
      var pes := MakeHeader(StreamId(spec.kind, 0, frame.stream), frame.pts, |frame.data|) + frame.data;
      if |pes| <= FIRST_ROOM {
        if room < PACKET {
          return;
        }
        out := AppendSingle(frame, pes, head);
      } else {
        var packNum := (|pes| - FIRST_ROOM + NEXT_ROOM - 1) / NEXT_ROOM;
        if room < PACKET * (packNum + 1) {
          return;
        }
        out := AppendMany(frame, pes, head);
      }
      ok := true;
    }

    /** lts_ts_stream; a failed call may have advanced the table counter all the same. */
    method Put(frame: Frame, maxlen: int) returns (ret: int, out: seq<byte>)
      requires Info().Valid() && frame.stream < streams.Length
      modifies this`patCounter, streams
      ensures Info().Valid()
      ensures frame.data == [] ==> ret == -1 && Info() == old(Info())
      ensures frame.data != [] ==>
        if maxlen >= old(Needed(frame, Info()))
        then
          && ret == |out| == old(Needed(frame, Info()))
          && out == Flatten(old(Stream(frame, Info()))) && Info() == old(AfterFrame(frame, Info()))
        else
          && ret == -1 && streams[..] == old(streams[..])
          && (patCounter == old(patCounter) || (frame.key && maxlen >= 2 * PACKET))
    {
      hide FramePackets, PatPacket, PmtPacket;
      ret, out := -1, [];
      if frame.data == [] || maxlen == 0 {
        return;
      }
      ghost var info := Info();
      assert PACKET * |Stream(frame, info)| ==
             PACKET * |TablePackets(frame, info)| + PACKET * |FramePackets(frame, info)|;
      var tables := 0;
      if frame.key {
        tables := 2 * PACKET;
        if maxlen < tables {
          return;
        }
        out := PatPacket(patCounter) + PmtPacket(ProgramInfo(streams[..], keyStream, patCounter));
        patCounter := patCounter + 1;
      }
      TablesFlat(frame, info);
      FramePacketsIgnoreTables(frame, info, Info());
      var ok, bytes := AppendFrame(frame, out, maxlen - tables);
      if ok {
        FlattenConcat(TablePackets(frame, info), FramePackets(frame, info));
        PacketsLength(Stream(frame, info));
        ret, out := |bytes|, bytes;
      } else {
        out := [];
      }
    }
  }

  /** The stream table after `n` packets of one stream. */
  function Counted(specs: seq<StreamSpec>, stream: nat, n: nat): (r: seq<StreamSpec>)
    requires stream < |specs|
    ensures |r| == |specs|
  {
    specs[stream := specs[stream].(counter := specs[stream].counter + n)]
  }

  lemma CountedNone(specs: seq<StreamSpec>, stream: nat)
    requires stream < |specs|
    ensures Counted(specs, stream, 0) == specs
  {
  }

  lemma CountedTwice(specs: seq<StreamSpec>, stream: nat, n: nat, k: nat)
    requires stream < |specs|
    ensures Counted(Counted(specs, stream, n), stream, k) == Counted(specs, stream, n + k)
    ensures Counted(specs, stream, n)[stream].counter == specs[stream].counter + n
  {
  }

  lemma CountedFrame(frame: Frame, info: ProgramInfo)
    requires Sendable(frame, info)
    ensures AfterFrame(frame, info).streams == Counted(info.streams, frame.stream, |FramePackets(frame, info)|)
  {
    hide FramePackets;
  }

  /** Only the last packet of a frame is not full. */
  lemma LastPacket(tailLen: nat, packNum: nat, i: nat)
    requires packNum == (tailLen + NEXT_ROOM - 1) / NEXT_ROOM && i <= packNum
    ensures i == packNum ==> NEXT_ROOM * i >= tailLen
    ensures i < packNum ==> NEXT_ROOM * i < tailLen && (i == packNum - 1 <==> tailLen - NEXT_ROOM * i <= NEXT_ROOM)
  {
  }

  lemma CutTwice(data: seq<byte>, fp: nat, n: nat)
    requires fp + n <= |data|
    ensures data[fp..][..n] == data[fp..fp + n] && data[fp..][n..] == data[fp + n..]
  {
  }

  /** The packets of a frame, and how many there are. */
  lemma FrameParts(frame: Frame, info: ProgramInfo)
    requires Sendable(frame, info)
    ensures var pes, ps := PesOf(frame, info), FramePackets(frame, info);
            var counter := info.streams[frame.stream].counter;
            && ps != []
            && ps[0] == Packet(StreamPid(frame.stream), true, Some(frame.pts), counter, FirstPayload(pes))
            && ps[1..] == NextPackets(frame.stream, counter + 1, Continuations(Tail(frame.data)))
            && |ps| == 1 + (|Tail(frame.data)| + NEXT_ROOM - 1) / NEXT_ROOM
            && Flatten(ps) == ps[0] + Flatten(ps[1..])
  {
    hide Packet, PesOf, NextPackets, Continuations, FirstPayload;
    FirstParts(frame, info);
    var ps := FramePackets(frame, info);
    assert |ps[1..]| == |ps| - 1;
  }

  lemma SinglePacket(frame: Frame, info: ProgramInfo)
    requires Sendable(frame, info) && |PesOf(frame, info)| <= FIRST_ROOM
    ensures var ps := FramePackets(frame, info); |ps| == 1 && Flatten(ps) == ps[0]
    ensures FirstPayload(PesOf(frame, info)) == PesOf(frame, info)
  {
    hide Packet, PesOf, NextPackets, Continuations;
    FrameParts(frame, info);
    var ps := FramePackets(frame, info);
    assert Tail(frame.data) == [];
    assert ps == [ps[0]];
    FlattenOne(ps[0]);
  }

  /** The packets that carry `tail`. */
  function RestBytes(stream: nat, counter: nat, tail: seq<byte>): seq<byte>
    requires stream < MAX_STREAM_NUM
  {
    Flatten(NextPackets(stream, counter, Continuations(tail)))
  }

  lemma RestBytesMeans(stream: nat, counter: nat, tail: seq<byte>)
    requires stream < MAX_STREAM_NUM
    ensures RestBytes(stream, counter, tail) == Flatten(NextPackets(stream, counter, Continuations(tail)))
  {
  }

  lemma NextStep(stream: nat, counter: nat, out: seq<byte>, tail: seq<byte>, n: nat)
    requires stream < MAX_STREAM_NUM && tail != [] && n == Min(|tail|, NEXT_ROOM)
    ensures out + RestBytes(stream, counter, tail) ==
            out + Packet(StreamPid(stream), false, None, counter, tail[..n]) + RestBytes(stream, counter + 1, tail[n..])
  {
    hide Packet, Continuations;
    ContinuationsStep(tail, n);
    var ps := Continuations(tail);
    var qs := NextPackets(stream, counter, ps);
    assert qs[1..] == NextPackets(stream, counter + 1, ps[1..]);
    hide NextPackets;
    assert out + (qs[0] + Flatten(qs[1..])) == out + qs[0] + Flatten(qs[1..]);
  }

  lemma ContinuationsStep(tail: seq<byte>, n: nat)
    requires tail != [] && n == Min(|tail|, NEXT_ROOM)
    ensures var ps := Continuations(tail); ps != [] && ps[0] == tail[..n] && ps[1..] == Continuations(tail[n..])
  {
    var ps := Continuations(tail);
    if |tail| <= NEXT_ROOM {
      assert tail[..n] == tail && ps[1..] == [];
    } else {
      assert ps[1..] == Continuations(tail[NEXT_ROOM..]);
    }
  }

  lemma NothingLeft(stream: nat, counter: nat)
    requires stream < MAX_STREAM_NUM
    ensures RestBytes(stream, counter, []) == []
  {
  }

  lemma TablesFlat(frame: Frame, info: ProgramInfo)
    requires info.Valid()
    ensures Flatten(TablePackets(frame, info)) == if frame.key then PatPacket(info.patCounter) + PmtPacket(info) else []
  {
    hide PatPacket, PmtPacket;
    if frame.key {
      var a, b := PatPacket(info.patCounter), PmtPacket(info);
      FlattenConcat([a], [b]);
      FlattenOne(a);
      FlattenOne(b);
      assert TablePackets(frame, info) == [a] + [b];
    }
  }

  lemma FramePacketsIgnoreTables(frame: Frame, info: ProgramInfo, info1: ProgramInfo)
    requires Sendable(frame, info) && info1.streams == info.streams
    ensures FramePackets(frame, info1) == FramePackets(frame, info)
  {
    hide Packet, NextPackets, MakeHeader, Continuations, FirstPayload;
    assert PesOf(frame, info1) == PesOf(frame, info);
  }

  lemma EntriesStep(p: seq<byte>, at: nat, end: nat, room: nat, found: seq<Entry>)
    requires |p| == PACKET && at + 4 < end <= PACKET && room > 0
    ensures found + ReadEntries(p, at, end, room) ==
            found + [Entry(Pid13(p[at + 1], p[at + 2]), p[at])]
            + ReadEntries(p, at + 5 + Length12(p[at + 3], p[at + 4]), end, room - 1)
  {
    hide Pid13, Length12;
  }

  lemma EntriesDone(p: seq<byte>, at: nat, end: nat, room: nat, found: seq<Entry>)
    requires |p| == PACKET && end <= PACKET && (room == 0 || at + 4 >= end)
    ensures found + ReadEntries(p, at, end, room) == found
  {
  }

  /** TDemux */
  class Demuxer {
    var programNum: int
    var pmtPid: nat
    var entries: seq<Entry>
    var pesHeadLen: nat
    var pesPts: nat
    var pts: nat
    /** The outcome of the last packet. */
    var isPes: bool
    var streamNo: nat
    var es: seq<byte>

    const syncOnly: bool

    constructor (syncOnly: bool)
      ensures this.syncOnly == syncOnly && State() == EMPTY && !isPes
    {
      this.syncOnly := syncOnly;
      programNum, pmtPid, entries, pesHeadLen, pesPts, pts := 0, 0, [], 0, 0, 0;
      isPes, streamNo, es := false, 0, [];
    }

    ghost function State(): Demux
      reads this
    {
      Demux(programNum, pmtPid, entries, pesHeadLen, pesPts, pts)
    }

    ghost function Outcome(): Report
      reads this
    {
      if isPes then Es(streamNo, es, pesPts) else NoPes
    }

    method HandlePat(p: seq<byte>)
      requires |p| == PACKET
      modifies this`programNum, this`pmtPid
      ensures State() == OnPat(old(State()), p)
    {
      hide PayloadOffset, Length12, Pid13;
      var off := PayloadOffset(p) + 1;
      var len := PACKET - off;
      if len >= 8 {
        var sectionLen := Length12(p[off + 1], p[off + 2]);
        if len >= sectionLen + 3 {
          var pnum := if len < 12 then -1 else (len - 12) / 4;
          if pnum > MAX_PROGRAM_NUM {
            pnum := MAX_PROGRAM_NUM;
          }
          programNum := pnum;
          if pnum == 1 {
            pmtPid := Pid13(p[off + 10], p[off + 11]);
          }
        }
      }
    }

    method HandlePmt(p: seq<byte>)
      requires |p| == PACKET
      modifies this`entries
      ensures State() == OnPmt(old(State()), p)
    {
      hide PayloadOffset, Length12, Pid13, ReadEntries;
      var off := PayloadOffset(p) + 1;
      var len := PACKET - off;
      if len > 12 {
        var sectionLen := Length12(p[off + 1], p[off + 2]);
        if len >= sectionLen + 3 {
          var stm: nat := off + 12 + Length12(p[off + 10], p[off + 11]);
          var end := off + 3 + sectionLen;
          ghost var all := ReadEntries(p, stm, end, MAX_STREAM_NUM);
          var found: seq<Entry> := [];
          while |found| < MAX_STREAM_NUM && stm + 4 < end
            invariant |found| <= MAX_STREAM_NUM
            invariant found + ReadEntries(p, stm, end, MAX_STREAM_NUM - |found|) == all
            decreases MAX_STREAM_NUM - |found|
          {
            EntriesStep(p, stm, end, MAX_STREAM_NUM - |found|, found);
            found := found + [Entry(Pid13(p[stm + 1], p[stm + 2]), p[stm])];
            stm := stm + 5 + Length12(p[stm + 3], p[stm + 4]);
          }
          EntriesDone(p, stm, end, MAX_STREAM_NUM - |found|, found);
          entries := found;
        }
      }
    }

    /** get_ts_pcr and get_ts_es */
    method HandleEs(p: seq<byte>, stream: nat)
      requires |p| == PACKET
      modifies this`pesHeadLen, this`pesPts, this`pts, this`isPes, this`streamNo, this`es
      ensures (State(), Outcome()) == OnEs(old(State()), stream, p)
    {
      hide PayloadOffset, HeadLen, ParsedPts, PacketPts;
      var payload := p[PayloadOffset(p)..];
      isPes, streamNo := true, stream;
      pts := PacketPts(p, pts);
      if pesHeadLen == 0 {
        pesHeadLen := HeadLen(payload);
        if pesHeadLen > 0 {
          pesPts := ParsedPts(payload, pesPts);
        }
      }
      if pesHeadLen > 0 {
        if pesHeadLen <= |payload| {
          es := payload[pesHeadLen..];
          pesHeadLen := 0;
        } else {
          pesHeadLen := pesHeadLen - |payload|;
          es := [];
        }
      } else {
        es := payload;
      }
    }

    method Lookup(pid: nat) returns (n: nat)
      ensures n == FindEntry(entries, pid)
    {
      n := 0;
      while n < |entries|
        invariant 0 <= n <= |entries|
        invariant forall i :: 0 <= i < n ==> entries[i].id != pid
      {
        if entries[n].id == pid {
          return;
        }
        n := n + 1;
      }
    }

    /** handle_ts_pack */
    method HandlePack(p: seq<byte>)
      requires |p| == PACKET && !isPes
      modifies this
      ensures (State(), Outcome()) == OnPacket(old(State()), p)
    {
      hide PacketPid, OnPat, OnPmt, OnEs;
      var pid := PacketPid(p);
      if pid == 0 {
        HandlePat(p);
        return;
      }
      if programNum == 1 && pid == pmtPid {
        HandlePmt(p);
        return;
      }
      if programNum == 1 {
        var n := Lookup(pid);
        if n < |entries| {
          HandleEs(p, n);
        }
      }
    }

    /**
     * lts_ts_demux: skip to the sync byte and take one packet. The length is compared without the
     * skipped bytes, so the packet may reach into `behind`, what lies in memory behind the buffer.
     */
    method Take(buf: seq<byte>, behind: seq<byte>) returns (ret: int)
      requires |behind| == PACKET
      modifies this
      ensures buf == [] ==> ret == -1 && State() == old(State())
      ensures 0 < |buf| < PACKET || (buf != [] && FirstSync(buf) == |buf|) ==>
                ret == 0 && State() == old(State()) && !isPes
      ensures |buf| >= PACKET && FirstSync(buf) < |buf| ==>
                && ret == FirstSync(buf) + PACKET
                && (State(), Outcome()) ==
                     if syncOnly then (old(State()), NoPes) else OnPacket(old(State()), PacketRead(buf, behind))
    {
      hide OnPacket;
      if buf == [] {
        return -1;
      }
      isPes := false;
      ret := 0;
      var i := 0;
      while i < |buf|
        invariant 0 <= i <= |buf| && State() == old(State()) && !isPes && ret == 0
        invariant i <= FirstSync(buf) || |buf| < PACKET
      {
        if buf[i] == 0x47 && |buf| >= PACKET {
          if !syncOnly {
            HandlePack((buf + behind)[i..i + PACKET]);
          }
          return i + PACKET;
        }
        i := i + 1;
      }
    }
  }
}
