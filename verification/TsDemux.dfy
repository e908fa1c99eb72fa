/**
 * The transport stream demultiplexer of file/libmpeg/tsdemux.c, one packet at a time. Header
 * bit-fields are signed in the source, so a 5-bit or 4-bit field with its top bit set comes out
 * sign-extended to eight bits.
 */
module TsDemux {
  import opened Bytes
  import opened Pes
  import opened TsMux

  const MAX_PROGRAM_NUM := 1

  function Signed5(x: nat): byte
    requires x < 32
  {
    if x < 16 then x else x + 224
  }

  function Signed4(x: nat): byte
    requires x < 16
  {
    if x < 8 then x else x + 240
  }

  /** CHAR_TO_LENGTH of a 5-bit or a 4-bit high part and a low byte. */
  function Pid13(hi: byte, lo: byte): nat { Signed5(hi % 32) * 256 + lo }

  function Length12(hi: byte, lo: byte): nat { Signed4(hi % 16) * 256 + lo }

  /** The fields of TDemux that outlive a packet. */
  datatype Demux = Demux(programNum: int, pmtPid: nat, entries: seq<Entry>, pesHeadLen: nat, pesPts: nat, pts: nat)

  const EMPTY := Demux(0, 0, [], 0, 0, 0)

  /** What a packet yields: nothing, or a piece of an elementary stream. */
  datatype Report = NoPes | Es(stream: nat, data: seq<byte>, pesPts: nat)

  /** get_ts_payload_offset; value 2 of the signed field never compares equal to 2. */
  function PayloadOffset(p: seq<byte>): (n: nat)
    requires |p| == PACKET
    ensures 4 <= n <= PACKET
  {
    match p[3] / 16 % 4
    case 0 => PACKET
    case 1 => 4
    case _ => Min(5 + (p[4] as int), PACKET)
  }

  function PacketPid(p: seq<byte>): nat
    requires |p| == PACKET
  {
    Pid13(p[1], p[2])
  }

  /** get_ts_pcr: in milliseconds, if there is one. */
  function PacketPts(p: seq<byte>, before: nat): nat
    requires |p| == PACKET
  {
    if p[3] / 16 % 4 <= 1 || p[4] == 0 || p[5] / 16 % 2 == 0 then before
    else ((p[6] as int) * 0x200_0000 + (p[7] as int) * 0x2_0000 + (p[8] as int) * 0x200
          + (p[9] as int) * 2 + (p[10] as int) / 128) / 90
  }

  /** A PAT; the number of programs is worked out from the payload, in unsigned arithmetic. */
  function OnPat(d: Demux, p: seq<byte>): Demux
    requires |p| == PACKET
  {
    var off := PayloadOffset(p) + 1;
    var len := PACKET - off;
    if len < 8 || len < Length12(p[off + 1], p[off + 2]) + 3 then d
    else if len < 12 then d.(programNum := -1)
    else
      var num := Min((len - 12) / 4, MAX_PROGRAM_NUM);
      if num == 0 then d.(programNum := 0)
      else d.(programNum := num, pmtPid := Pid13(p[off + 10], p[off + 11]))
  }

  /** The stream loop of a PMT, from position `at` up to `end`. */
  function ReadEntries(p: seq<byte>, at: nat, end: nat, room: nat): seq<Entry>
    requires |p| == PACKET && end <= PACKET
    decreases room
  {
    if room == 0 || at + 4 >= end then []
    else [Entry(Pid13(p[at + 1], p[at + 2]), p[at])]
         + ReadEntries(p, at + 5 + Length12(p[at + 3], p[at + 4]), end, room - 1)
  }

  function OnPmt(d: Demux, p: seq<byte>): Demux
    requires |p| == PACKET
  {
    var off := PayloadOffset(p) + 1;
    var len := PACKET - off;
    if len <= 12 || len < Length12(p[off + 1], p[off + 2]) + 3 then d
    else
      var end := off + 3 + Length12(p[off + 1], p[off + 2]);
      d.(entries := ReadEntries(p, off + 12 + Length12(p[off + 10], p[off + 11]), end, MAX_STREAM_NUM))
  }

  /** get_ts_es: strip a PES header if one is expected or seen; the packet's start flag is not looked at. */
  function OnEs(d: Demux, stream: nat, p: seq<byte>): (Demux, Report)
    requires |p| == PACKET
  {
    var payload := p[PayloadOffset(p)..];
    var found := d.pesHeadLen == 0 && HeadLen(payload) > 0;
    var headLen := if d.pesHeadLen == 0 then HeadLen(payload) else d.pesHeadLen;
    var pesPts := if found then ParsedPts(payload, d.pesPts) else d.pesPts;
    var d1 := d.(pesPts := pesPts, pts := PacketPts(p, d.pts));
    if headLen <= |payload| then (d1.(pesHeadLen := 0), Es(stream, payload[headLen..], pesPts))
    else (d1.(pesHeadLen := headLen - |payload|), Es(stream, [], pesPts))
  }

  /** handle_ts_pack */
  function OnPacket(d: Demux, p: seq<byte>): (Demux, Report)
    requires |p| == PACKET
  {
    var pid := PacketPid(p);
    if pid == 0 then (OnPat(d, p), NoPes)
    else if d.programNum == 1 && pid == d.pmtPid then (OnPmt(d, p), NoPes)
    else if d.programNum == 1 && FindEntry(d.entries, pid) < |d.entries| then OnEs(d, FindEntry(d.entries, pid), p)
    else (d, NoPes)
  }

  /** Packet after packet. */
  function OnPackets(d: Demux, ps: seq<seq<byte>>): (Demux, seq<Report>)
    requires forall p <- ps :: |p| == PACKET
    decreases |ps|
  {
    if ps == [] then (d, [])
    else
      var (d1, r) := OnPacket(d, ps[0]);
      var (d2, rs) := OnPackets(d1, ps[1..]);
      (d2, [r] + rs)
  }

  lemma {:induction false} OnPacketsConcat(d: Demux, a: seq<seq<byte>>, b: seq<seq<byte>>)
    requires (forall p <- a :: |p| == PACKET) && (forall p <- b :: |p| == PACKET)
    ensures var (d1, ra) := OnPackets(d, a);
            var (d2, rb) := OnPackets(d1, b);
            OnPackets(d, a + b) == (d2, ra + rb)
    decreases |a|
  {
    hide OnPacket;
    if a == [] {
      assert a + b == b;
      assert [] + OnPackets(d, b).1 == OnPackets(d, b).1;
    } else {
      assert (a + b)[1..] == a[1..] + b && (a + b)[0] == a[0];
      var (d1, r) := OnPacket(d, a[0]);
      OnPacketsConcat(d1, a[1..], b);
      var (d2, ra) := OnPackets(d1, a[1..]);
      assert [r] + ra + OnPackets(d2, b).1 == [r] + (ra + OnPackets(d2, b).1);
    }
  }

  // ---------------------------------------------------------------- the byte stream

  /** The first sync byte, or the length if there is none. */
  function FirstSync(buf: seq<byte>): (n: nat)
    ensures n <= |buf| && (n < |buf| ==> buf[n] == 0x47)
    ensures forall i :: 0 <= i < n ==> buf[i] != 0x47
  {
    if buf == [] || buf[0] == 0x47 then 0 else 1 + FirstSync(buf[1..])
  }

  /** On a stream of whole packets the demultiplexer finds them one after the other. */
  lemma NextInStream(ps: seq<seq<byte>>)
    requires ps != [] && forall p <- ps :: |p| == PACKET && p[0] == 0x47
    ensures var buf := Flatten(ps);
            && |buf| >= PACKET && FirstSync(buf) == 0
            && buf[..PACKET] == ps[0] && buf[PACKET..] == Flatten(ps[1..])
  {
    assert ps[0] in ps;
    var buf := Flatten(ps);
    assert buf == ps[0] + Flatten(ps[1..]);
    assert buf[0] == 0x47;
  }

  /** A caller's loop: packet after packet off the front, each behind its sync byte. */
  function Drain(d: Demux, buf: seq<byte>): (Demux, seq<Report>)
    decreases |buf|
  {
    var i := FirstSync(buf);
    if i + PACKET > |buf| then (d, [])
    else
      var (d1, r) := OnPacket(d, buf[i..i + PACKET]);
      var (d2, rs) := Drain(d1, buf[i + PACKET..]);
      (d2, [r] + rs)
  }

  /** On the bytes of whole packets that is packet after packet. */
  lemma {:induction false} DrainPackets(d: Demux, ps: seq<seq<byte>>)
    requires forall p <- ps :: |p| == PACKET && p[0] == 0x47
    ensures Drain(d, Flatten(ps)) == OnPackets(d, ps)
    decreases |ps|
  {
    hide OnPacket, FirstSync;
    if ps != [] {
      NextInStream(ps);
      DrainPackets(OnPacket(d, ps[0]).0, ps[1..]);
      hide Flatten;
    }
  }

  // ---------------------------------------------------------------- garbage

  /** The packet that is read at the first sync byte, when `behind` lies in memory behind the buffer. */
  function PacketRead(buf: seq<byte>, behind: seq<byte>): (p: seq<byte>)
    requires FirstSync(buf) < |buf| && |behind| == PACKET
    ensures |p| == PACKET
  {
    var i := FirstSync(buf);
    (buf + behind)[i..i + PACKET]
  }

  /** What is read depends on nothing behind the buffer exactly if a whole packet follows the sync byte. */
  lemma ReadsInsideIff(buf: seq<byte>)
    requires FirstSync(buf) < |buf|
    ensures (forall x: seq<byte>, y: seq<byte> ::
               |x| == PACKET && |y| == PACKET ==> PacketRead(buf, x) == PacketRead(buf, y))
            <==> FirstSync(buf) + PACKET <= |buf|
  {
    hide FirstSync, PacketRead;
    if FirstSync(buf) + PACKET <= |buf| {
      forall x: seq<byte>, y: seq<byte> | |x| == PACKET && |y| == PACKET
        ensures PacketRead(buf, x) == PacketRead(buf, y)
      {
        PacketInside(buf, x);
        PacketInside(buf, y);
      }
    } else {
      var x: seq<byte>, y: seq<byte> := seq(PACKET, _ => 0), seq(PACKET, _ => 1);
      PacketOutside(buf, x);
      PacketOutside(buf, y);
      assert x[0] != y[0];
    }
  }

  lemma PacketInside(buf: seq<byte>, behind: seq<byte>)
    requires FirstSync(buf) + PACKET <= |buf| && |behind| == PACKET
    ensures PacketRead(buf, behind) == buf[FirstSync(buf)..FirstSync(buf) + PACKET]
  {
    hide FirstSync;
  }

  lemma PacketOutside(buf: seq<byte>, behind: seq<byte>)
    requires FirstSync(buf) < |buf| < FirstSync(buf) + PACKET && |behind| == PACKET
    ensures PacketRead(buf, behind)[|buf| - FirstSync(buf)] == behind[0]
  {
    hide FirstSync;
    AtBoundary(buf, behind, FirstSync(buf), FirstSync(buf) + PACKET);
  }

  lemma AtBoundary(a: seq<byte>, b: seq<byte>, i: nat, j: nat)
    requires i <= |a| < j <= |a| + |b|
    ensures (a + b)[i..j][|a| - i] == b[0]
  {
    assert (a + b)[|a|] == b[0];
  }

  /** 188 bytes of which the last is the first sync byte: 187 bytes behind the buffer are read. */
  lemma ReadsOutside()
    ensures var buf: seq<byte> := seq(187, _ => 0) + [0x47]; |buf| == PACKET && FirstSync(buf) == 187
  {
    var garbage: seq<byte> := seq(187, _ => 0);
    GarbageSkippedIff(garbage, [0x47]);
  }

  /** Garbage in front of a packet is skipped exactly if it holds no sync byte. */
  lemma {:induction false} GarbageSkippedIff(garbage: seq<byte>, s: seq<byte>)
    requires s != [] && s[0] == 0x47
    ensures FirstSync(garbage + s) == |garbage| <==> 0x47 !in garbage
  {
    var b := garbage + s;
    assert forall i :: 0 <= i < |garbage| ==> b[i] == garbage[i];
    assert b[|garbage|] == 0x47;
    if 0x47 in garbage {
      var i :| 0 <= i < |garbage| && garbage[i] == 0x47;
      assert b[i] == 0x47;
    }
  }

  /** A stream that is entered in the middle of a packet, or behind other bytes without a sync byte. */
  lemma DrainBehindGarbage(d: Demux, garbage: seq<byte>, ps: seq<seq<byte>>)
    requires 0x47 !in garbage && ps != [] && forall p <- ps :: |p| == PACKET && p[0] == 0x47
    ensures Drain(d, garbage + Flatten(ps)) == OnPackets(d, ps)
  {
    hide OnPacket, FirstSync;
    NextInStream(ps);
    var s := Flatten(ps);
    hide Flatten;
    assert s[0] == s[..PACKET][0] && ps[0] in ps;
    GarbageSkippedIff(garbage, s);
    var b, i := garbage + s, |garbage|;
    assert b[i..i + PACKET] == s[..PACKET] && b[i + PACKET..] == s[PACKET..];
    DrainPackets(OnPacket(d, ps[0]).0, ps[1..]);
  }
}
