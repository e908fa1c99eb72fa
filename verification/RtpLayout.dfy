/** The packets of the H.264 packetiser over whole runs, field by field (RFC 3550 section 5.1, RFC 6184 section 5.8). */
module RtpLayout {
  import opened Bytes
  import opened BitStrings
  import opened BitIo
  import opened BitFields
  import opened RtpH264

  // ---------------------------------------------------------------- the headers, bit by bit

  /** Version 2, no padding, no extension, no contributing sources; marker, payload type 96; the three numbers. */
  function HeaderFieldList(marker: bool, seqNo: nat, timestamp: nat, ssrc: nat): seq<Field> {
    [Field(2, 2), Field(1, 0), Field(1, 0), Field(4, 0)] + [Field(1, if marker then 1 else 0), Field(7, 96)]
    + [Field(16, seqNo)] + [Field(32, timestamp)] + [Field(32, ssrc)]
  }

  lemma HeaderLayout(marker: bool, seqNo: nat, timestamp: nat, ssrc: nat)
    ensures FieldBits(HeaderFieldList(marker, seqNo, timestamp, ssrc)) ==
            BitsOf(RtpHeader(marker, seqNo, timestamp, ssrc))
  {
    hide FieldBits, BitsOf, Pow2, Be16, Be32;
    PowersTo8();
    var f1 := [Field(2, 2), Field(1, 0), Field(1, 0), Field(4, 0)];
    var f2 := [Field(1, if marker then 1 else 0), Field(7, 96)];
    var b2 := (if marker then 128 else 0) + 96;
    Byte4(Field(2, 2), Field(1, 0), Field(1, 0), Field(4, 0), 0x80);
    Byte2(Field(1, if marker then 1 else 0), Field(7, 96), b2);
    WordField(seqNo);
    WordField(timestamp);
    WordField(ssrc);
    Glue(f1, [0x80], f2, [b2]);
    Glue(f1 + f2, [0x80] + [b2], [Field(16, seqNo)], Be16(seqNo));
    Glue(f1 + f2 + [Field(16, seqNo)], [0x80] + [b2] + Be16(seqNo), [Field(32, timestamp)], Be32(timestamp));
    Glue(f1 + f2 + [Field(16, seqNo)] + [Field(32, timestamp)], [0x80] + [b2] + Be16(seqNo) + Be32(timestamp),
         [Field(32, ssrc)], Be32(ssrc));
    assert [0x80] + [b2] == [0x80, b2];
  }

  /** Fragmentation unit: the upper bits of the unit and type 28; start, end, a zero bit, the unit's type. */
  function FuBytes(nal: byte, first: bool, last: bool): (b: seq<byte>)
    ensures |b| == 2
  {
    [nal / 32 * 32 + 28, (if first then 128 else 0) + (if last then 64 else 0) + nal % 32]
  }

  lemma FuLayout(nal: byte, first: bool, last: bool)
    ensures FieldBits([Field(3, nal / 32), Field(5, 28)]
                      + [Field(1, if first then 1 else 0), Field(1, if last then 1 else 0)]
                      + [Field(1, 0), Field(5, nal % 32)]) ==
            BitsOf(FuBytes(nal, first, last))
  {
    hide FieldBits, BitsOf, Pow2;
    PowersTo8();
    var s, e, t := Field(1, if first then 1 else 0), Field(1, if last then 1 else 0), Field(5, nal % 32);
    var b1, b2 := nal / 32 * 32 + 28, (if first then 128 else 0) + (if last then 64 else 0) + nal % 32;
    Byte2(Field(3, nal / 32), Field(5, 28), b1);
    Byte4(s, e, Field(1, 0), t, b2);
    Glue([Field(3, nal / 32), Field(5, 28)], [b1], [s, e, Field(1, 0), t], [b2]);
    assert [Field(3, nal / 32), Field(5, 28)] + [s, e] + [Field(1, 0), t] ==
           [Field(3, nal / 32), Field(5, 28)] + [s, e, Field(1, 0), t];
    assert [b1] + [b2] == FuBytes(nal, first, last);
  }

  // ---------------------------------------------------------------- whole runs

  datatype Rtp = Rtp(marker: bool, seqNo: nat, timestamp: nat, ssrc: nat, payload: seq<byte>)

  function Number(s: seq<byte>, at: nat): nat
    requires at + 4 <= |s|
  {
    (s[at] as int) * 0x100_0000 + (s[at + 1] as int) * 0x1_0000 + (s[at + 2] as int) * 0x100 + s[at + 3]
  }

  /** A packet without contributing sources, of payload type 96. */
  predicate Plain(p: seq<byte>) { |p| >= 12 && p[0] == 0x80 && p[1] % 128 == 96 }

  function Read(p: seq<byte>): Rtp
    requires Plain(p)
  {
    Rtp(p[1] / 128 == 1, (p[2] as int) * 0x100 + p[3], Number(p, 4), Number(p, 8), p[12..])
  }

  predicate AllPlain(ps: seq<seq<byte>>) {
    forall p <- ps :: Plain(p)
  }

  function ReadAll(ps: seq<seq<byte>>): seq<Rtp>
    requires AllPlain(ps)
  {
    if ps == [] then [] else (assert ps[0] in ps; [Read(ps[0])] + ReadAll(ps[1..]))
  }

  /**
   * The fragments of a frame from byte `pos` on: 1440 bytes each, or what is left; the first has the
   * start flag, the last the end flag and the marker.
   */
  function FragmentSpec(seqNo: nat, timestamp: nat, ssrc: nat, frame: seq<byte>, pos: nat): seq<Rtp>
    requires 1 <= pos && frame != []
    decreases |frame| - pos
  {
    if pos >= |frame| then []
    else
      var last := pos + 1440 >= |frame|;
      var payload := FuBytes(frame[0], pos == 1, last) + frame[pos..Min(|frame|, pos + 1440)];
      [Rtp(last, seqNo % TWO16, timestamp % TWO32, ssrc, payload)]
      + FragmentSpec(seqNo + 1, timestamp, ssrc, frame, pos + 1440)
  }

  /** A frame of at most 1440 bytes is one packet, with the marker. */
  function FrameSpec(seqNo: nat, timestamp: nat, ssrc: nat, frame: seq<byte>): seq<Rtp> {
    if |frame| <= 1440 then [Rtp(true, seqNo % TWO16, timestamp % TWO32, ssrc, frame)]
    else FragmentSpec(seqNo, timestamp, ssrc, frame, 1)
  }

  /** Sequence numbers count packets and time stamps count 3600 a frame, both modulo their width. */
  function RunSpec(seqNo: nat, timestamp: nat, ssrc: nat, frames: seq<seq<byte>>): seq<Rtp>
    decreases |frames|
  {
    if frames == [] then []
    else
      var ps := FrameSpec(seqNo, timestamp, ssrc, frames[0]);
      ps + RunSpec(seqNo + |ps|, timestamp + 3600, ssrc, frames[1..])
  }

  lemma PacketRead(marker: bool, m: Mux, payload: seq<byte>)
    requires m.Valid()
    ensures var p := RtpHeader(marker, m.seqNo, m.timestamp, m.ssrc) + payload;
            Plain(p) && Read(p) == Rtp(marker, m.seqNo, m.timestamp, m.ssrc, payload)
  {
    var p := RtpHeader(marker, m.seqNo, m.timestamp, m.ssrc) + payload;
    hide Be16, Be32;
    HeaderFields(marker, m, payload);
    assert p[0] == 0x80 && p[1] == (if marker then 128 else 0) + 96;
    NumberIs(p);
  }

  lemma NumberIs(p: seq<byte>)
    requires |p| >= 12
    ensures Number(p, 4) == LoadBe32(p[4..8]) && Number(p, 8) == LoadBe32(p[8..12])
    ensures (p[2] as int) * 0x100 + p[3] == LoadBe16(p[2..4])
  {
  }

  lemma {:induction false} ReadConcat(a: seq<seq<byte>>, b: seq<seq<byte>>)
    requires AllPlain(a) && AllPlain(b)
    ensures AllPlain(a + b) && ReadAll(a + b) == ReadAll(a) + ReadAll(b)
  {
    hide Plain, Read;
    if a == [] {
      assert a + b == b;
    } else {
      assert a[0] in a && forall p <- a[1..] :: p in a;
      assert (a + b)[1..] == a[1..] + b;
      ReadConcat(a[1..], b);
    }
  }

  lemma ReadOne(p: seq<byte>)
    requires Plain(p)
    ensures AllPlain([p]) && ReadAll([p]) == [Read(p)]
  {
    hide Plain, Read;
    assert [p][1..] == [];
  }

  lemma NothingRead()
    ensures AllPlain([]) && ReadAll([]) == []
  {
  }

  lemma {:induction false} FragmentsRead(m: Mux, seqNo: nat, timestamp: nat, frame: seq<byte>, pos: nat)
    requires m.Valid() && m.seqNo == seqNo % TWO16 && m.timestamp == timestamp % TWO32 && 1 <= pos <= |frame|
    ensures var ps := Fragments(m, frame[0], pos == 1, frame[pos..]);
            AllPlain(ps) && ReadAll(ps) == FragmentSpec(seqNo, timestamp, m.ssrc, frame, pos)
    decreases |frame| - pos
  {
    hide Fragment, Fragments, FragmentSpec, Plain, Read, ReadAll, AllPlain, FuBytes;
    var rest, nal := frame[pos..], frame[0];
    NothingRead();
    SpecStep(seqNo, timestamp, m.ssrc, frame, pos);
    if pos == |frame| {
      NoFragments(m, nal, pos == 1);
    } else {
      var last := pos + 1440 >= |frame|;
      var chunk := frame[pos..Min(|frame|, pos + 1440)];
      var p := Fragment(m, nal, pos == 1, last, chunk);
      var later := if last then [] else Fragments(Bump(m), nal, false, rest[1440..]);
      FragmentCut(m, frame, pos);
      FragmentRead(m, nal, pos == 1, last, chunk);
      ReadOne(p);
      if !last {
        assert rest[1440..] == frame[pos + 1440..];
        FragmentsRead(Bump(m), seqNo + 1, timestamp, frame, pos + 1440);
      }
      ReadConcat([p], later);
    }
  }

  lemma SpecStep(seqNo: nat, timestamp: nat, ssrc: nat, frame: seq<byte>, pos: nat)
    requires 1 <= pos <= |frame|
    ensures var last := pos + 1440 >= |frame|;
            var payload := FuBytes(frame[0], pos == 1, last) + frame[pos..Min(|frame|, pos + 1440)];
            FragmentSpec(seqNo, timestamp, ssrc, frame, pos) ==
              if pos == |frame| then []
              else [Rtp(last, seqNo % TWO16, timestamp % TWO32, ssrc, payload)]
                   + if last then [] else FragmentSpec(seqNo + 1, timestamp, ssrc, frame, pos + 1440)
  {
    hide FuBytes;
  }

  lemma NoFragments(m: Mux, nal: byte, first: bool)
    requires m.Valid()
    ensures Fragments(m, nal, first, []) == []
  {
  }

  lemma FragmentCut(m: Mux, frame: seq<byte>, pos: nat)
    requires m.Valid() && 1 <= pos < |frame|
    ensures var last := pos + 1440 >= |frame|;
            Fragments(m, frame[0], pos == 1, frame[pos..]) ==
              [Fragment(m, frame[0], pos == 1, last, frame[pos..Min(|frame|, pos + 1440)])]
              + if last then [] else Fragments(Bump(m), frame[0], false, frame[pos..][1440..])
  {
    hide Fragment;
    var rest := frame[pos..];
    if pos + 1440 >= |frame| {
      assert rest == frame[pos..|frame|];
    } else {
      assert rest[..1440] == frame[pos..pos + 1440];
    }
  }

  lemma FragmentRead(m: Mux, nal: byte, first: bool, last: bool, chunk: seq<byte>)
    requires m.Valid()
    ensures var p := Fragment(m, nal, first, last, chunk);
            Plain(p) && Read(p) == Rtp(last, m.seqNo, m.timestamp, m.ssrc, FuBytes(nal, first, last) + chunk)
  {
    hide RtpHeader, Plain, Read;
    var fu := FuBytes(nal, first, last);
    assert Fragment(m, nal, first, last, chunk) == RtpHeader(last, m.seqNo, m.timestamp, m.ssrc) + (fu + chunk);
    PacketRead(last, m, fu + chunk);
  }

  lemma FrameRead(m: Mux, seqNo: nat, timestamp: nat, frame: seq<byte>)
    requires m.Valid() && m.seqNo == seqNo % TWO16 && m.timestamp == timestamp % TWO32
    ensures AllPlain(Packets(m, frame)) && ReadAll(Packets(m, frame)) == FrameSpec(seqNo, timestamp, m.ssrc, frame)
  {
    hide RtpHeader, Plain, Read, ReadAll, Fragments, FragmentSpec;
    if |frame| <= 1440 {
      PacketRead(true, m, frame);
      ReadOne(RtpHeader(true, m.seqNo, m.timestamp, m.ssrc) + frame);
    } else {
      FragmentsRead(m, seqNo, timestamp, frame, 1);
    }
  }

  lemma {:induction false} ReadLength(ps: seq<seq<byte>>)
    requires AllPlain(ps)
    ensures |ReadAll(ps)| == |ps|
  {
    hide Plain, Read;
    if ps != [] {
      assert forall p <- ps[1..] :: p in ps;
      ReadLength(ps[1..]);
    }
  }

  lemma AfterCounts(m: Mux, seqNo: nat, timestamp: nat, frame: seq<byte>)
    requires m.Valid() && m.seqNo == seqNo % TWO16 && m.timestamp == timestamp % TWO32
    ensures var m1 := After(m, frame);
            && m1.Valid() && m1.ssrc == m.ssrc
            && m1.seqNo == (seqNo + |Packets(m, frame)|) % TWO16 && m1.timestamp == (timestamp + 3600) % TWO32
  {
    hide Packets;
    AddMod16(seqNo, |Packets(m, frame)|);
    AddMod32(timestamp, 3600);
  }

  /** A counter may be reduced before it is advanced. */
  lemma AddMod16(a: nat, n: nat)
    ensures (a % TWO16 + n) % TWO16 == (a + n) % TWO16
  {
    var b := a % TWO16 + n;
    Quotient(a + n, TWO16, a / TWO16 + b / TWO16, b % TWO16);
  }

  lemma AddMod32(a: nat, n: nat)
    ensures (a % TWO32 + n) % TWO32 == (a + n) % TWO32
  {
    var b := a % TWO32 + n;
    Quotient(a + n, TWO32, a / TWO32 + b / TWO32, b % TWO32);
  }

  /** Every packet of every run, with all its fields and its payload. */
  lemma {:induction false} RunSpecified(m: Mux, seqNo: nat, timestamp: nat, frames: seq<seq<byte>>)
    requires m.Valid() && m.seqNo == seqNo % TWO16 && m.timestamp == timestamp % TWO32
    ensures AllPlain(RunPackets(m, frames))
    ensures ReadAll(RunPackets(m, frames)) == RunSpec(seqNo, timestamp, m.ssrc, frames)
    decreases |frames|
  {
    hide AllPlain, ReadAll, Packets, FrameSpec, After;
    if frames == [] {
      NothingRead();
    } else {
      AfterCounts(m, seqNo, timestamp, frames[0]);
      var ps := Packets(m, frames[0]);
      FrameRead(m, seqNo, timestamp, frames[0]);
      ReadLength(ps);
      var m1 := After(m, frames[0]);
      RunSpecified(m1, seqNo + |ps|, timestamp + 3600, frames[1..]);
      ReadConcat(ps, RunPackets(m1, frames[1..]));
    }
  }

  // ---------------------------------------------------------------- the reader's decisions

  /**
   * A frame is handed over exactly by a packet of at least 14 bytes whose time stamp is later, or
   * has just wrapped around; a packet that is too short, or older, changes nothing.
   */
  lemma HandedOverIff(d: Demux, p: seq<byte>)
    requires |p| >= 12
    ensures var ts := Number(p, 4);
            var newer := d.timestamp < ts || (d.timestamp > 10000 && ts < 10000);
            && (OnPacket(d, p).1 == if |p| >= 14 && d.buffer != [] && newer
                                    then [Call(d.buffer, d.timestamp, d.ssrc)] else [])
            && (|p| < 14 || (d.buffer != [] && !newer && ts != d.timestamp) ==> OnPacket(d, p).0 == d)
  {
    hide LoadBe32, Append;
    NumberIs(p);
  }
}
