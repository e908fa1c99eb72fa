/** The packets of the multiplexer, field by field as section 2.4 of ISO/IEC 13818-1 tabulates them. */
module TsLayout {
  import opened Bytes
  import opened BitStrings
  import opened BitIo
  import opened BitFields
  import opened Crc
  import opened Pes
  import opened TsMux
  import opened TsRoundTrip

  // ---------------------------------------------------------------- the packet header

  function Flag(on: bool): Field { Field(1, if on then 1 else 0) }

  /**
   * Sync byte; error indicator, start indicator, priority, PID; no scrambling, adaptation field and
   * payload, continuity counter.
   */
  function HeadFields(pid: nat, start: bool, counter: nat): seq<Field> {
    [Field(8, 0x47)]
    + [Field(1, 0), Flag(start), Field(1, 0), Field(13, pid)]
    + [Field(2, 0), Field(2, 3), Field(4, counter)]
  }

  /** Length of the adaptation field, and its eight flags, of which only the fourth is ever set. */
  function AdaptationFields(length: nat, clock: bool): seq<Field> {
    [Field(8, length)]
    + ([Field(1, 0), Field(1, 0), Field(1, 0), Flag(clock)] + [Field(1, 0), Field(1, 0), Field(1, 0), Field(1, 0)])
  }

  /** The clock reference: base, reserved bits, extension. */
  function ClockFields(ts: nat): seq<Field> {
    [Field(33, ts), Field(6, 0x3f), Field(9, 0)]
  }

  function Stuffing(n: nat): seq<Field> {
    if n == 0 then [] else [Field(8, 0xff)] + Stuffing(n - 1)
  }

  function PacketFields(pid: nat, start: bool, pcr: Option<nat>, counter: nat, len: nat): seq<Field>
    requires len <= 182 && (pcr.Some? ==> len <= 176)
  {
    HeadFields(pid, start, counter) + AdaptationFields(183 - len, pcr.Some?)
    + (if pcr.Some? then ClockFields(pcr.value) + Stuffing(176 - len) else Stuffing(182 - len))
  }

  lemma PidBytes(a: Field, b: Field, c: Field, pid: nat, first: byte)
    requires pid < 0x2000 && a.count == 1 && b.count == 1 && c.count == 1
    requires Narrow(b) && Narrow(c) && first == 128 * a.value + 64 * b.value + 32 * c.value + pid / 256
    ensures FieldBits([a, b, c, Field(13, pid)]) == BitsOf([first, pid % 256])
  {
    hide FieldBits, BitsOf, Pow2;
    PowersTo8();
    var hi, lo := Field(5, pid / 256), Field(8, pid % 256);
    Merge(hi, lo);
    Byte4(a, b, c, hi, first);
    ByteField(pid % 256);
    Glue([a, b, c, hi], [first], [lo], [pid % 256]);
    Replace([a, b, c], [hi, lo], [Field(13, pid)], []);
    assert [a, b, c, hi] + [lo] == [a, b, c] + [hi, lo] + [];
    assert [a, b, c, Field(13, pid)] == [a, b, c] + [Field(13, pid)] + [];
    assert [first] + [pid % 256] == [first, pid % 256];
  }

  lemma CounterByte(counter: nat)
    ensures FieldBits([Field(2, 0), Field(2, 3), Field(4, counter)]) == BitsOf([0x30 + counter % 16])
  {
    hide FieldBits, BitsOf, ToBits, Pow2;
    PowersTo8();
    Byte3(Field(2, 0), Field(2, 3), Field(4, counter % 16), 0x30 + counter % 16);
    ToBitsMod(counter, 4);
    FieldBitsThree(Field(2, 0), Field(2, 3), Field(4, counter));
    FieldBitsThree(Field(2, 0), Field(2, 3), Field(4, counter % 16));
  }

  lemma HeadLayout(pid: nat, start: bool, counter: nat)
    requires pid < 0x2000
    ensures FieldBits(HeadFields(pid, start, counter)) ==
            BitsOf([0x47, (if start then 0x40 else 0) + pid / 256, pid % 256, 0x30 + counter % 16])
  {
    hide FieldBits, BitsOf, Pow2;
    var first := (if start then 0x40 else 0) + pid / 256;
    PowersTo8();
    ByteField(0x47);
    PidBytes(Field(1, 0), Flag(start), Field(1, 0), pid, first);
    CounterByte(counter);
    var f2 := [Field(1, 0), Flag(start), Field(1, 0), Field(13, pid)];
    var f3 := [Field(2, 0), Field(2, 3), Field(4, counter)];
    Glue([Field(8, 0x47)], [0x47], f2, [first, pid % 256]);
    Glue([Field(8, 0x47)] + f2, [0x47] + [first, pid % 256], f3, [0x30 + counter % 16]);
    assert [0x47] + [first, pid % 256] + [0x30 + counter % 16] == [0x47, first, pid % 256, 0x30 + counter % 16];
  }

  /** Eight one-bit fields. */
  lemma FlagByte(clock: bool)
    ensures FieldBits([Field(1, 0), Field(1, 0), Field(1, 0), Flag(clock)]
                      + [Field(1, 0), Field(1, 0), Field(1, 0), Field(1, 0)]) == BitsOf([if clock then 0x10 else 0])
  {
    hide FieldBits, BitsOf, ToBits, Pow2;
    PowersTo8();
    var z, high, low := Field(1, 0), Field(4, if clock then 1 else 0), Field(4, 0);
    FourBits(Flag(clock));
    FourBits(z);
    FieldBitsConcat([z, z, z, Flag(clock)], [z, z, z, z]);
    FieldBitsTwo(high, low);
    Byte2(high, low, if clock then 0x10 else 0);
  }

  lemma FourBits(f: Field)
    requires f.count == 1 && f.value < 2
    ensures FieldBits([Field(1, 0), Field(1, 0), Field(1, 0), f]) == ToBits(f.value, 4)
  {
    hide FieldBits, ToBits, Pow2;
    PowersTo8();
    var z := Field(1, 0);
    FieldBitsOne(f);
    Prepend(z, [f], f.value, 1);
    Prepend(z, [z] + [f], f.value, 2);
    Prepend(z, [z] + ([z] + [f]), f.value, 3);
    assert [z] + ([z] + ([z] + [f])) == [z, z, z, f];
  }

  lemma AdaptationLayout(length: byte, clock: bool)
    ensures FieldBits(AdaptationFields(length, clock)) == BitsOf([length, if clock then 0x10 else 0])
  {
    hide FieldBits, BitsOf;
    ByteField(length);
    FlagByte(clock);
    var z := Field(1, 0);
    var flags := [z, z, z, Flag(clock)] + [z, z, z, z];
    Glue([Field(8, length)], [length], flags, [if clock then 0x10 else 0]);
    assert [length] + [if clock then 0x10 else 0] == [length, if clock then 0x10 else 0];
  }

  lemma ClockLayout(ts: nat)
    ensures FieldBits(ClockFields(ts)) == BitsOf(Pcr(ts))
  {
    hide FieldBits, BitsOf, Pow2, Be32;
    PowersTo8();
    var half, last := Field(32, ts / 2), Field(1, ts % 2);
    Merge(half, last);
    Merge(Field(1, 0), Field(8, 0));
    WordField(ts / 2);
    Byte3(last, Field(6, 0x3f), Field(1, 0), ts % 2 * 128 + 0x7e);
    ByteField(0);
    var mid := [last, Field(6, 0x3f), Field(1, 0)];
    Glue([half], Be32(ts / 2), mid, [ts % 2 * 128 + 0x7e]);
    Glue([half] + mid, Be32(ts / 2) + [ts % 2 * 128 + 0x7e], [Field(8, 0)], [0]);
    Replace([], [half, last], [Field(33, ts)], [Field(6, 0x3f), Field(1, 0), Field(8, 0)]);
    Replace([Field(33, ts), Field(6, 0x3f)], [Field(1, 0), Field(8, 0)], [Field(9, 0)], []);
    assert [half] + mid + [Field(8, 0)] == [] + [half, last] + [Field(6, 0x3f), Field(1, 0), Field(8, 0)];
    assert [] + [Field(33, ts)] + [Field(6, 0x3f), Field(1, 0), Field(8, 0)] ==
           [Field(33, ts), Field(6, 0x3f)] + [Field(1, 0), Field(8, 0)] + [];
    assert [Field(33, ts), Field(6, 0x3f)] + [Field(9, 0)] + [] == ClockFields(ts);
    PcrBytes(ts);
  }

  lemma PcrBytes(ts: nat)
    ensures Pcr(ts) == Be32(ts / 2) + [ts % 2 * 128 + 0x7e] + [0]
  {
    Digits(ts, 2, 0x100);
    Digits(ts, 2, 0x1_0000);
    Digits(ts, 2, 0x100_0000);
    var h := ts / 2;
    Digits(h, 0x100, 0x100);
    Digits(h, 0x100, 0x1_0000);
    Digits(h / 0x100, 0x100, 0x100);
  }

  lemma {:induction false} StuffingLayout(n: nat)
    ensures FieldBits(Stuffing(n)) == BitsOf(Padding(n))
  {
    hide FieldBits, BitsOf;
    if n == 0 {
      NoFields();
    } else {
      StuffingLayout(n - 1);
      ByteField(0xff);
      Glue([Field(8, 0xff)], [0xff], Stuffing(n - 1), Padding(n - 1));
      assert Padding(n) == [0xff] + Padding(n - 1);
    }
  }

  /** The header of every packet, bit by bit. */
  lemma HeaderLayout(pid: nat, start: bool, pcr: Option<nat>, counter: nat, len: nat)
    requires pid < 0x2000 && len <= Room(pcr)
    ensures len <= 182 && (pcr.Some? ==> len <= 176)
    ensures FieldBits(PacketFields(pid, start, pcr, counter, len)) == BitsOf(Header(pid, start, pcr, counter, len))
  {
    hide FieldBits, BitsOf, Pcr, Padding, HeadFields, AdaptationFields, ClockFields, Stuffing;
    HeadLayout(pid, start, counter);
    AdaptationLayout(183 - len, pcr.Some?);
    StuffingLayout(Room(pcr) - len);
    var f1, f2 := HeadFields(pid, start, counter), AdaptationFields(183 - len, pcr.Some?);
    var f4 := Stuffing(Room(pcr) - len);
    var b1 := [0x47, (if start then 0x40 else 0) + pid / 256, pid % 256, 0x30 + counter % 16];
    var b2, b4 := [183 - len, if pcr.Some? then 0x10 else 0], Padding(Room(pcr) - len);
    Glue(f1, b1, f2, b2);
    if pcr.Some? {
      ClockLayout(pcr.value);
      Glue(ClockFields(pcr.value), Pcr(pcr.value), f4, b4);
      Glue(f1 + f2, b1 + b2, ClockFields(pcr.value) + f4, Pcr(pcr.value) + b4);
    } else {
      Glue(f1 + f2, b1 + b2, f4, b4);
      assert [] + b4 == b4;
    }
    HeaderParts(pid, start, pcr, counter, len, b1, b2);
  }

  lemma HeaderParts(pid: nat, start: bool, pcr: Option<nat>, counter: nat, len: nat, b1: seq<byte>, b2: seq<byte>)
    requires pid < 0x2000 && len <= Room(pcr)
    requires b1 == [0x47, (if start then 0x40 else 0) + pid / 256, pid % 256, 0x30 + counter % 16]
    requires b2 == [183 - len, if pcr.Some? then 0x10 else 0]
    ensures Header(pid, start, pcr, counter, len) ==
            b1 + b2 + ((if pcr.Some? then Pcr(pcr.value) else []) + Padding(Room(pcr) - len))
  {
    hide Pcr, Padding;
  }

  // ---------------------------------------------------------------- the tables

  /** Table id; syntax indicator, a zero bit, reserved bits, section length. */
  function SectionStart(table: nat, length: nat): seq<Field> {
    [Field(8, table)] + [Field(1, 1), Field(1, 0), Field(2, 3), Field(12, length)]
  }

  /** Reserved bits, version 0, currently applicable; section 0 of 0. */
  function VersionFields(): seq<Field> {
    [Field(2, 3), Field(5, 0), Field(1, 1)] + [Field(8, 0)] + [Field(8, 0)]
  }

  /** Reserved bits in front of a PID or of a length. */
  function PidField(pid: nat): seq<Field> { [Field(3, 7), Field(13, pid)] }

  function InfoLength(n: nat): seq<Field> { [Field(4, 15), Field(12, n)] }

  /** Program association: transport stream 0x0010 has program 1, whose map is on PID 0x1001. */
  function PatFields(): seq<Field> {
    SectionStart(0, 13) + [Field(16, 0x0010)] + VersionFields() + [Field(16, 1)] + PidField(0x1001)
  }

  /** The PID that carries the clock: that of the key stream if there is such a stream, or of the first. */
  function ClockPid(info: ProgramInfo): nat {
    if 0 <= info.keyStream < |info.streams| then 0x0100 + info.keyStream else 0x0100
  }

  function StreamFields(streams: seq<StreamSpec>, from: nat): seq<Field>
    requires from <= |streams|
    decreases |streams| - from
  {
    if from == |streams| then []
    else [Field(8, streams[from].kind)] + PidField(0x0100 + from) + InfoLength(0) + StreamFields(streams, from + 1)
  }

  /** Program map of program 1. */
  function PmtFields(info: ProgramInfo): seq<Field> {
    SectionStart(2, 13 + 5 * |info.streams|) + [Field(16, 1)] + VersionFields()
    + PidField(ClockPid(info)) + InfoLength(0) + StreamFields(info.streams, 0)
  }

  lemma PidLayout(pid: nat)
    requires pid < 0x2000
    ensures FieldBits(PidField(pid)) == BitsOf([0xE0 + pid / 256, pid % 256])
  {
    hide FieldBits, BitsOf, Pow2;
    PowersTo8();
    var one := Field(1, 1);
    PidBytes(one, one, one, pid, 0xE0 + pid / 256);
    Merge(one, one);
    Merge(Field(2, 3), one);
    Replace([], [one, one], [Field(2, 3)], [one, Field(13, pid)]);
    Replace([], [Field(2, 3), one], [Field(3, 7)], [Field(13, pid)]);
    assert [one, one, one, Field(13, pid)] == [] + [one, one] + [one, Field(13, pid)];
    assert [] + [Field(2, 3)] + [one, Field(13, pid)] == [] + [Field(2, 3), one] + [Field(13, pid)];
    assert [] + [Field(3, 7)] + [Field(13, pid)] == PidField(pid);
  }

  lemma InfoLengthLayout()
    ensures FieldBits(InfoLength(0)) == BitsOf([0xF0, 0x00])
  {
    hide FieldBits, BitsOf, Pow2;
    PowersTo8();
    Merge(Field(4, 0), Field(8, 0));
    Byte2(Field(4, 15), Field(4, 0), 0xF0);
    ByteField(0);
    Glue([Field(4, 15), Field(4, 0)], [0xF0], [Field(8, 0)], [0]);
    Replace([Field(4, 15)], [Field(4, 0), Field(8, 0)], [Field(12, 0)], []);
    assert [Field(4, 15), Field(4, 0)] + [Field(8, 0)] == [Field(4, 15)] + [Field(4, 0), Field(8, 0)] + [];
    assert [Field(4, 15)] + [Field(12, 0)] + [] == InfoLength(0);
    assert [0xF0] + [0] == [0xF0, 0x00];
  }

  lemma SectionStartLayout(table: byte, length: byte)
    ensures FieldBits(SectionStart(table, length)) == BitsOf([table, 0xB0, length])
  {
    hide FieldBits, BitsOf, Pow2;
    PowersTo8();
    Merge(Field(4, 0), Field(8, length));
    var front := [Field(1, 1), Field(1, 0), Field(2, 3)];
    Byte4(Field(1, 1), Field(1, 0), Field(2, 3), Field(4, 0), 0xB0);
    ByteField(length);
    ByteField(table);
    assert front + [Field(4, 0)] == [Field(1, 1), Field(1, 0), Field(2, 3), Field(4, 0)];
    Glue(front + [Field(4, 0)], [0xB0], [Field(8, length)], [length]);
    Replace(front, [Field(4, 0), Field(8, length)], [Field(12, length)], []);
    assert front + [Field(4, 0)] + [Field(8, length)] == front + [Field(4, 0), Field(8, length)] + [];
    assert front + [Field(12, length)] + [] == [Field(1, 1), Field(1, 0), Field(2, 3), Field(12, length)];
    Glue([Field(8, table)], [table], front + [Field(12, length)] + [], [0xB0] + [length]);
    assert [table] + ([0xB0] + [length]) == [table, 0xB0, length];
  }

  lemma VersionLayout()
    ensures FieldBits(VersionFields()) == BitsOf([0xC1, 0x00, 0x00])
  {
    hide FieldBits, BitsOf, Pow2;
    PowersTo8();
    Byte3(Field(2, 3), Field(5, 0), Field(1, 1), 0xC1);
    ByteField(0);
    var f := [Field(2, 3), Field(5, 0), Field(1, 1)];
    Glue(f, [0xC1], [Field(8, 0)], [0]);
    Glue(f + [Field(8, 0)], [0xC1] + [0], [Field(8, 0)], [0]);
    assert [0xC1] + [0] + [0] == [0xC1, 0x00, 0x00];
  }

  /** The program association section, bit by bit. */
  lemma PatLayout()
    ensures FieldBits(PatFields()) == BitsOf(PatBody())
  {
    hide FieldBits, BitsOf, SectionStart, VersionFields, PidField, Be16;
    SectionStartLayout(0, 13);
    WordField(0x0010);
    VersionLayout();
    WordField(1);
    PidLayout(0x1001);
    var f1, b1: seq<byte> := SectionStart(0, 13), [0x00, 0xB0, 13];
    var f2, b2 := f1 + [Field(16, 0x0010)], b1 + Be16(0x0010);
    Glue(f1, b1, [Field(16, 0x0010)], Be16(0x0010));
    Glue(f2, b2, VersionFields(), [0xC1, 0x00, 0x00]);
    Glue(f2 + VersionFields(), b2 + [0xC1, 0x00, 0x00], [Field(16, 1)], Be16(1));
    Glue(f2 + VersionFields() + [Field(16, 1)], b2 + [0xC1, 0x00, 0x00] + Be16(1), PidField(0x1001),
         [0xE0 + 0x1001 / 256, 0x1001 % 256]);
  }

  lemma {:induction false} StreamsLayout(streams: seq<StreamSpec>, from: nat)
    requires from <= |streams| <= MAX_STREAM_NUM
    ensures FieldBits(StreamFields(streams, from)) == BitsOf(PmtEntries(streams, from))
    decreases |streams| - from
  {
    hide FieldBits, BitsOf, PidField, InfoLength;
    if from == |streams| {
      NoFields();
    } else {
      var kind, pid := streams[from].kind, 0x0100 + from;
      ByteField(kind);
      PidLayout(pid);
      InfoLengthLayout();
      StreamsLayout(streams, from + 1);
      var b2: seq<byte> := [0xE0 + pid / 256, pid % 256];
      Glue([Field(8, kind)], [kind], PidField(pid), b2);
      Glue([Field(8, kind)] + PidField(pid), [kind] + b2, InfoLength(0), [0xF0, 0x00]);
      Glue([Field(8, kind)] + PidField(pid) + InfoLength(0), [kind] + b2 + [0xF0, 0x00],
           StreamFields(streams, from + 1), PmtEntries(streams, from + 1));
      assert [kind] + b2 + [0xF0, 0x00] == PmtEntry(kind, from);
    }
  }

  /** The program map section, bit by bit, for every list of streams and every key stream. */
  lemma PmtLayout(info: ProgramInfo)
    requires info.Valid()
    ensures FieldBits(PmtFields(info)) == BitsOf(PmtBody(info))
  {
    hide FieldBits, BitsOf, SectionStart, VersionFields, PidField, InfoLength, Be16, StreamFields, PmtEntries;
    var n: byte, pid := 13 + 5 * |info.streams|, ClockPid(info);
    SectionStartLayout(2, n);
    WordField(1);
    VersionLayout();
    PidLayout(pid);
    InfoLengthLayout();
    StreamsLayout(info.streams, 0);
    var f1, b1: seq<byte> := SectionStart(2, n), [0x02, 0xB0, n];
    var f2, b2 := f1 + [Field(16, 1)], b1 + Be16(1);
    var f3, b3 := f2 + VersionFields(), b2 + [0xC1, 0x00, 0x00];
    var f4, b4 := f3 + PidField(pid), b3 + [0xE0 + pid / 256, pid % 256];
    var f5, b5 := f4 + InfoLength(0), b4 + [0xF0, 0x00];
    Glue(f1, b1, [Field(16, 1)], Be16(1));
    Glue(f2, b2, VersionFields(), [0xC1, 0x00, 0x00]);
    Glue(f3, b3, PidField(pid), [0xE0 + pid / 256, pid % 256]);
    Glue(f4, b4, InfoLength(0), [0xF0, 0x00]);
    Glue(f5, b5, StreamFields(info.streams, 0), PmtEntries(info.streams, 0));
    assert b5 == b3 + [0xE0 + pid / 256, pid % 256, 0xF0, 0x00];
  }

  // ---------------------------------------------------------------- the packets of a run

  /** What can be read off a packet: PID, start indicator, clock reference and payload. */
  datatype Shape = Shape(pid: nat, start: bool, clock: Option<nat>, payload: seq<byte>)

  function ShapeOf(p: seq<byte>): Shape
    requires |p| == 188
  {
    var clock :=
      if p[5] / 16 % 2 == 0 then None
      else Some((p[6] as int) * 0x200_0000 + (p[7] as int) * 0x2_0000 + (p[8] as int) * 0x200
                + (p[9] as int) * 2 + (p[10] as int) / 128);
    Shape((p[1] as int) % 32 * 256 + p[2], p[1] / 64 % 2 == 1, clock, p[Min(188, 5 + p[4] as int)..])
  }

  function Shapes(ps: seq<seq<byte>>): (r: seq<Shape>)
    requires forall p <- ps :: |p| == 188
    ensures |r| == |ps|
  {
    if ps == [] then [] else (assert ps[0] in ps; [ShapeOf(ps[0])] + Shapes(ps[1..]))
  }

  lemma {:induction false} ShapesConcat(a: seq<seq<byte>>, b: seq<seq<byte>>)
    requires (forall p <- a :: |p| == 188) && forall p <- b :: |p| == 188
    ensures Shapes(a + b) == Shapes(a) + Shapes(b)
  {
    if a == [] {
      assert a + b == b;
    } else {
      assert (a + b)[1..] == a[1..] + b;
      ShapesConcat(a[1..], b);
    }
  }

  /** The packet reads as what it was made of. */
  lemma PacketShape(pid: nat, start: bool, pcr: Option<nat>, counter: nat, payload: seq<byte>)
    requires pid < 0x2000 && |payload| <= Room(pcr)
    ensures ShapeOf(Packet(pid, start, pcr, counter, payload)) ==
            Shape(pid, start, if pcr.Some? then Some(pcr.value % TWO33) else None, payload)
  {
    hide Pcr, Padding;
    PacketLayout(pid, start, pcr, counter, payload);
    var p := Packet(pid, start, pcr, counter, payload);
    var h := Header(pid, start, pcr, counter, |payload|);
    assert p[5] == h[5];
    if pcr.Some? {
      var s := Pcr(pcr.value);
      assert p[6] == s[0] && p[7] == s[1] && p[8] == s[2] && p[9] == s[3] && p[10] == s[4];
      PcrDigits(pcr.value);
    }
  }

  /** Packet `i` of a frame carries its bytes from here on: 176 in the first packet, 182 in every other. */
  function CutAt(i: nat): nat { if i == 0 then 0 else 176 + 182 * (i - 1) }

  function PieceOf(pes: seq<byte>, i: nat): seq<byte>
    requires CutAt(i) <= |pes|
  {
    pes[CutAt(i)..Min(|pes|, CutAt(i + 1))]
  }

  /** The packets of a frame from packet `i` on: only the first has the start indicator and the clock. */
  function FrameShapes(pid: nat, pts: nat, pes: seq<byte>, i: nat): seq<Shape>
    requires CutAt(i) <= |pes|
    decreases |pes| - CutAt(i)
  {
    [Shape(pid, i == 0, if i == 0 then Some(pts % TWO33) else None, PieceOf(pes, i))]
    + if CutAt(i + 1) >= |pes| then [] else FrameShapes(pid, pts, pes, i + 1)
  }

  /** The packets of one call: before a key frame the two tables, each behind a pointer field of 0. */
  function CallShapes(frame: Frame, info: ProgramInfo): seq<Shape>
    requires info.Valid() && frame.stream < |info.streams|
  {
    (if frame.key
     then [Shape(0, true, None, [0] + Section(PatBody()))] + [Shape(0x1001, true, None, [0] + Section(PmtBody(info)))]
     else [])
    + FrameShapes(0x0100 + frame.stream, frame.pts, PesOf(frame, info), 0)
  }

  /** And of a whole run. The tables do not change in the course of it. */
  function RunShapes(frames: seq<Frame>, info: ProgramInfo): seq<Shape>
    requires info.Valid() && AllFit(frames, |info.streams|)
    decreases |frames|
  {
    if frames == [] then [] else CallShapes(frames[0], info) + RunShapes(frames[1..], info)
  }

  lemma OneShape(p: seq<byte>, rest: seq<seq<byte>>)
    requires |p| == 188 && forall q <- rest :: |q| == 188
    ensures Shapes([p] + rest) == [ShapeOf(p)] + Shapes(rest)
  {
    assert ([p] + rest)[1..] == rest;
  }

  lemma NoShapes()
    ensures Shapes([]) == []
  {
  }

  /** Every packet after the first, by induction over the bytes left. */
  lemma {:induction false} NextShapes(stream: nat, counter: nat, pts: nat, pes: seq<byte>, i: nat)
    requires stream < MAX_STREAM_NUM && 1 <= i && CutAt(i) < |pes|
    ensures Shapes(NextPackets(stream, counter, Continuations(pes[CutAt(i)..]))) ==
            FrameShapes(0x0100 + stream, pts, pes, i)
    decreases |pes| - CutAt(i)
  {
    hide Packet, ShapeOf, Shapes, FrameShapes, NextPackets, Continuations, PieceOf;
    var tail := pes[CutAt(i)..];
    var payload := PieceOf(pes, i);
    NextCut(tail, pes, i);
    var later := NextPackets(stream, counter + 1, Continuations(tail)[1..]);
    var p := Packet(StreamPid(stream), false, None, counter, payload);
    NextPacketsStep(stream, counter, Continuations(tail));
    OneShape(p, later);
    PacketShape(StreamPid(stream), false, None, counter, payload);
    FrameShapesStep(0x0100 + stream, pts, pes, i);
    if CutAt(i + 1) < |pes| {
      NextShapes(stream, counter + 1, pts, pes, i + 1);
    } else {
      NoneNext(stream, counter + 1);
    }
  }

  lemma NextPacketsStep(stream: nat, counter: nat, payloads: seq<seq<byte>>)
    requires stream < MAX_STREAM_NUM && payloads != [] && forall p <- payloads :: |p| <= NEXT_ROOM
    ensures payloads[0] in payloads && forall p <- payloads[1..] :: p in payloads
    ensures NextPackets(stream, counter, payloads) ==
            [Packet(StreamPid(stream), false, None, counter, payloads[0])]
            + NextPackets(stream, counter + 1, payloads[1..])
  {
    hide Packet;
  }

  lemma FrameShapesStep(pid: nat, pts: nat, pes: seq<byte>, i: nat)
    requires CutAt(i) <= |pes|
    ensures FrameShapes(pid, pts, pes, i) ==
            [Shape(pid, i == 0, if i == 0 then Some(pts % TWO33) else None, PieceOf(pes, i))]
            + if CutAt(i + 1) >= |pes| then [] else FrameShapes(pid, pts, pes, i + 1)
  {
  }

  /** The payload loop cuts where the table says. */
  lemma NextCut(tail: seq<byte>, pes: seq<byte>, i: nat)
    requires 1 <= i && CutAt(i) < |pes| && tail == pes[CutAt(i)..]
    ensures var cs := Continuations(tail);
            && cs != [] && cs[0] == PieceOf(pes, i) && |PieceOf(pes, i)| <= 182
            && cs[1..] == if CutAt(i + 1) < |pes| then Continuations(pes[CutAt(i + 1)..]) else []
  {
    var n := |tail|;
    if n <= 182 {
      assert Continuations(tail) == [tail] && pes[CutAt(i)..|pes|] == tail;
    } else {
      assert pes[CutAt(i)..CutAt(i + 1)] == tail[..182] && pes[CutAt(i + 1)..] == tail[182..];
      assert ([tail[..182]] + Continuations(tail[182..]))[1..] == Continuations(tail[182..]);
    }
  }

  lemma FrameShape(frame: Frame, info: ProgramInfo)
    requires info.Valid() && frame.stream < |info.streams|
    ensures Shapes(FramePackets(frame, info)) ==
            FrameShapes(0x0100 + frame.stream, frame.pts, PesOf(frame, info), 0)
  {
    hide Packet, ShapeOf, Shapes, FrameShapes, NextPackets, PesOf, Continuations;
    var pes, counter := PesOf(frame, info), info.streams[frame.stream].counter;
    var later := NextPackets(frame.stream, counter + 1, Continuations(Rest(pes)));
    OneShape(FirstPacket(frame, info), later);
    PacketShape(StreamPid(frame.stream), true, Some(frame.pts), counter, FirstPayload(pes));
    FrameShapesStep(0x0100 + frame.stream, frame.pts, pes, 0);
    if |pes| > 176 {
      assert Rest(pes) == pes[CutAt(1)..] && pes[CutAt(0)..CutAt(1)] == FirstPayload(pes);
      NextShapes(frame.stream, counter + 1, frame.pts, pes, 1);
    } else {
      assert Rest(pes) == [] && pes[0..|pes|] == pes;
      NoneNext(frame.stream, counter + 1);
    }
  }

  lemma NoneNext(stream: nat, counter: nat)
    requires stream < MAX_STREAM_NUM
    ensures NextPackets(stream, counter, []) == [] && Continuations([]) == [] && Shapes([]) == []
  {
  }

  lemma TableShapes(frame: Frame, info: ProgramInfo)
    requires info.Valid()
    ensures Shapes(TablePackets(frame, info)) ==
            if frame.key
            then [Shape(0, true, None, [0] + Section(PatBody()))]
                 + [Shape(0x1001, true, None, [0] + Section(PmtBody(info)))]
            else []
  {
    hide Packet, ShapeOf, Shapes, Section, PatBody, PmtBody;
    NoShapes();
    if frame.key {
      var p, q := PatPacket(info.patCounter), PmtPacket(info);
      PatShape(info.patCounter);
      PmtShape(info);
      OneShape(p, [q]);
      OneShape(q, []);
      assert [p] + [q] == [p, q] && [q] + [] == [q];
      assert [ShapeOf(q)] + [] == [ShapeOf(q)];
    }
  }

  lemma PatShape(counter: nat)
    ensures ShapeOf(PatPacket(counter)) == Shape(0, true, None, [0] + Section(PatBody()))
  {
    hide ShapeOf, Packet, CrcBytes, Checksum;
    PacketShape(0, true, None, counter, [0] + Section(PatBody()));
  }

  lemma PmtShape(info: ProgramInfo)
    requires info.Valid()
    ensures ShapeOf(PmtPacket(info)) == Shape(0x1001, true, None, [0] + Section(PmtBody(info)))
  {
    hide ShapeOf, Packet, CrcBytes, Checksum, PmtBody;
    PacketShape(PMT_PID, true, None, info.patCounter, [0] + Section(PmtBody(info)));
  }

  /** Counters do not show in the shapes. */
  lemma {:induction false} SameShapes(frames: seq<Frame>, a: ProgramInfo, b: ProgramInfo)
    requires a.Valid() && b.Valid() && |a.streams| == |b.streams| && AllFit(frames, |a.streams|)
    requires a.keyStream == b.keyStream && forall i :: 0 <= i < |a.streams| ==> a.streams[i].kind == b.streams[i].kind
    ensures RunShapes(frames, a) == RunShapes(frames, b)
    decreases |frames|
  {
    hide CallShapes;
    if frames != [] {
      SameCall(frames[0], a, b);
      SameShapes(frames[1..], a, b);
    }
  }

  lemma SameCall(frame: Frame, a: ProgramInfo, b: ProgramInfo)
    requires a.Valid() && b.Valid() && |a.streams| == |b.streams| && frame.stream < |a.streams|
    requires a.keyStream == b.keyStream && forall i :: 0 <= i < |a.streams| ==> a.streams[i].kind == b.streams[i].kind
    ensures CallShapes(frame, a) == CallShapes(frame, b)
  {
    hide FrameShapes, Section, PatBody, MakeHeader;
    SameEntries(a.streams, b.streams, 0);
  }

  lemma {:induction false} SameEntries(a: seq<StreamSpec>, b: seq<StreamSpec>, from: nat)
    requires from <= |a| == |b| <= MAX_STREAM_NUM && forall i :: 0 <= i < |a| ==> a[i].kind == b[i].kind
    ensures PmtEntries(a, from) == PmtEntries(b, from)
    decreases |a| - from
  {
    hide PmtEntry;
    if from < |a| {
      SameEntries(a, b, from + 1);
    }
  }

  /**
   * Every run: which packets are made, on which PID, with which bytes; the start indicator is set on
   * exactly the packets that begin with a section pointer or with the PES header of a frame.
   */
  lemma {:induction false} RunShaped(frames: seq<Frame>, info: ProgramInfo)
    requires info.Valid() && AllFit(frames, |info.streams|)
    ensures Shapes(RunPackets(frames, info)) == RunShapes(frames, info)
    decreases |frames|
  {
    hide Shapes, Stream, CallShapes;
    if frames == [] {
      NoShapes();
    } else {
      var frame, info1 := frames[0], AfterFrame(frames[0], info);
      ShapesConcat(Stream(frame, info), RunPackets(frames[1..], info1));
      CallShaped(frame, info);
      RunShaped(frames[1..], info1);
      KindsStay(frame, info);
      SameShapes(frames[1..], info1, info);
    }
  }

  lemma CallShaped(frame: Frame, info: ProgramInfo)
    requires info.Valid() && frame.stream < |info.streams|
    ensures Shapes(Stream(frame, info)) == CallShapes(frame, info)
  {
    hide Shapes, FrameShapes, TablePackets, FramePackets, Section, PatBody, PmtBody, PesOf;
    ShapesConcat(TablePackets(frame, info), FramePackets(frame, info));
    TableShapes(frame, info);
    FrameShape(frame, info);
  }

  lemma KindsStay(frame: Frame, info: ProgramInfo)
    requires info.Valid() && frame.stream < |info.streams|
    ensures var info1 := AfterFrame(frame, info);
            && info1.keyStream == info.keyStream
            && forall i :: 0 <= i < |info.streams| ==> info1.streams[i].kind == info.streams[i].kind
  {
    hide FramePackets;
  }

  /** The number of packets of a frame: one, and one more for every 182 bytes begun behind the first 176. */
  lemma {:induction false} FrameCount(pid: nat, pts: nat, pes: seq<byte>, i: nat)
    requires CutAt(i) < |pes|
    ensures |FrameShapes(pid, pts, pes, i)| == 1 + (Max0(|pes| - CutAt(i + 1)) + 181) / 182
    decreases |pes| - CutAt(i)
  {
    FrameShapesStep(pid, pts, pes, i);
    hide FrameShapes;
    if CutAt(i + 1) < |pes| {
      FrameCount(pid, pts, pes, i + 1);
    }
  }

  function Max0(n: int): nat { if n < 0 then 0 else n }
}
