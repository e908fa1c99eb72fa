/**
 * PES packet headers (ISO/IEC 13818-1 section 2.4.3.6): the byte-wise writer and the parser of
 * file/libmpeg/pes.c, and the bit-wise writer of file/libmpeg/ps/psmux.cpp.
 */
module Pes {
  import opened Bytes
  import opened BitStrings
  import opened BitIo
  import opened BitFields

  const MAX_STREAM_NUM := 4
  const HEADER_LEN := 19

  predicate IsVideo(kind: byte) {
    kind in {0x01, 0x02, 0x10, 0x1b, 0x24, 0x42, 0xea, 0xd1}
  }

  predicate IsAudio(kind: byte) {
    kind in {0x03, 0x04, 0x0f, 0x11, 0x81, 0x82, 0x83}
  }

  /** lts_pes_stream_id; types that are neither audio nor video get stream id 0. */
  function StreamId(kind: byte, program: nat, stream: nat): byte {
    if IsVideo(kind) then (0xE0 + program * MAX_STREAM_NUM + stream) % 256
    else if IsAudio(kind) then (0xC0 + program * MAX_STREAM_NUM + stream) % 256
    else 0
  }

  /** Video streams are numbered from 0xE0, audio streams from 0xC0, and no kind is both. */
  lemma StreamIds(kind: byte, stream: nat)
    requires stream < 4
    ensures StreamId(kind, 0, stream) == 0xE0 + stream <==>
            kind in {0x01, 0x02, 0x10, 0x1b, 0x24, 0x42, 0xea, 0xd1}
    ensures StreamId(kind, 0, stream) == 0xC0 + stream <==> kind in {0x03, 0x04, 0x0f, 0x11, 0x81, 0x82, 0x83}
    ensures StreamId(kind, 0, stream) in {0, 0xC0 + stream, 0xE0 + stream}
  {
  }

  // ---------------------------------------------------------------- the byte-wise writer

  /** A 33-bit time stamp in five bytes, under a four-bit tag. */
  function Stamp(tag: nat, ts: nat): (s: seq<byte>)
    requires tag < 16
    ensures |s| == 5
  {
    [tag * 16 + ts / 0x4000_0000 % 8 * 2 + 1,
     ts / 0x40_0000 % 256,
     ts / 0x8000 % 128 * 2 + 1,
     ts / 0x80 % 256,
     ts % 128 * 2 + 1]
  }

  /** A length that does not fit in 16 bits is written as 0. */
  function PacketLength(esLen: nat): (n: nat)
    ensures n < 0x1_0000
  {
    if esLen + 13 > 65535 then 0 else esLen + 13
  }

  function HeaderBytes(id: byte, length: nat, pts: nat, dts: nat): (h: seq<byte>)
    ensures |h| == HEADER_LEN
  {
    [0, 0, 1, id] + Be16(length) + [0x80, 0xC0, 10] + Stamp(3, pts) + Stamp(1, dts)
  }

  /** lts_pes_make_header, for a destination that is large enough. */
  function MakeHeader(id: byte, pts: nat, esLen: nat): (h: seq<byte>)
    ensures |h| == HEADER_LEN
  {
    HeaderBytes(id, PacketLength(esLen), pts, pts)
  }

  // ---------------------------------------------------------------- the stream table

  /** A stream a demultiplexer knows, by its PID in a transport stream or by its stream id. */
  datatype Entry = Entry(id: nat, kind: byte)

  function FindEntry(entries: seq<Entry>, id: nat): (n: nat)
    ensures n <= |entries| && (n < |entries| ==> entries[n].id == id)
    ensures forall i :: 0 <= i < n ==> entries[i].id != id
  {
    if entries == [] || entries[0].id == id then 0 else 1 + FindEntry(entries[1..], id)
  }

  // ---------------------------------------------------------------- the parser

  /** get_pes_head_len: 0 unless the bytes look like the header of a media packet. */
  function HeadLen(pes: seq<byte>): (n: nat)
    ensures n == 0 || (n >= 9 && |pes| >= 9)
  {
    if |pes| >= 9 && pes[0] == 0 && pes[1] == 0 && pes[2] == 1 && pes[3] >= 0x20 then 9 + (pes[8] as int) else 0
  }

  function StampValue(s: seq<byte>): nat
    requires |s| >= 5
  {
    (s[0] as int) / 2 % 8 * 0x4000_0000 + (s[1] as int) * 0x40_0000 + (s[2] as int) / 2 * 0x8000
    + (s[3] as int) * 0x80 + (s[4] as int) / 2
  }

  /** The time stamp of a recognised header, in milliseconds; without one, or cut off, the old value. */
  function ParsedPts(pes: seq<byte>, before: nat): nat
    requires |pes| >= 9
  {
    if pes[7] >= 0x80 && |pes| >= 14 then StampValue(pes[9..14]) / 90 else before
  }

  function ParsedEsLen(pes: seq<byte>): int
    requires |pes| >= 9
  {
    LoadBe16(pes[4..6]) - 3 - pes[8]
  }

  lemma StampRoundTrip(tag: nat, ts: nat)
    requires tag < 16
    ensures StampValue(Stamp(tag, ts)) == ts % TWO33
  {
    Digits(ts, 0x80, 0x100);
    Digits(ts, 0x8000, 0x80);
    Digits(ts, 0x40_0000, 0x100);
    Digits(ts, 0x4000_0000, 8);
    StampBytes(tag, ts);
  }

  lemma StampBytes(tag: nat, ts: nat)
    requires tag < 16
    ensures StampValue(Stamp(tag, ts)) ==
            ts / 0x4000_0000 % 8 * 0x4000_0000 + ts / 0x40_0000 % 256 * 0x40_0000 + ts / 0x8000 % 128 * 0x8000
            + ts / 0x80 % 256 * 0x80 + ts % 128
  {
    OddByte(tag, ts / 0x4000_0000 % 8);
    OddByte(0, ts / 0x8000 % 128);
    OddByte(0, ts % 128);
  }

  lemma OddByte(tag: nat, x: nat)
    requires x < 128 && (x < 8 || tag == 0)
    ensures (tag * 16 + x * 2 + 1) / 2 == tag * 8 + x && (x < 8 ==> (tag * 8 + x) % 8 == x)
  {
  }

  /**
   * The parser undoes the writer, whatever follows the header: it is recognised exactly for the
   * stream ids of media, and the length comes back exactly if it fits its 16 bits.
   */
  lemma ParseMade(id: byte, pts: nat, esLen: nat, rest: seq<byte>, before: nat)
    ensures var pes := MakeHeader(id, pts, esLen) + rest;
            && HeadLen(pes) == (if id >= 0x20 then HEADER_LEN else 0) && pes[3] == id
            && ParsedPts(pes, before) == pts % TWO33 / 90
            && (ParsedEsLen(pes) == esLen <==> esLen + 13 <= 65535)
  {
    hide Stamp, StampValue;
    var pes := MakeHeader(id, pts, esLen) + rest;
    assert pes[9..14] == Stamp(3, pts);
    StampRoundTrip(3, pts);
    assert pes[4..6] == Be16(PacketLength(esLen));
    Be16RoundTrip(PacketLength(esLen));
  }

  // ---------------------------------------------------------------- the bit-wise writer

  function GbStamp(tag: nat, ts: nat): seq<Field> {
    [Field(4, tag), Field(3, ts / 0x4000_0000 % 8), Field(1, 1)]
    + [Field(15, ts / 0x8000 % 0x8000), Field(1, 1)]
    + [Field(15, ts % 0x8000), Field(1, 1)]
  }

  /** gb28181_make_pes_header: the fields in the order they are written. */
  function GbFields(id: byte, payloadLen: nat, pts: nat, dts: nat): seq<Field> {
    GbFixed(id, payloadLen) + GbStamp(3, pts) + GbStamp(1, dts)
  }

  /** Those in front of the time stamps. */
  function GbFixed(id: byte, payloadLen: nat): seq<Field> {
    [Field(24, 0x000001), Field(8, id), Field(16, payloadLen + 13)]
    + [Field(2, 2), Field(2, 0), Field(1, 0), Field(1, 0), Field(1, 0), Field(1, 0)]
    + [Field(1, 1), Field(1, 1), Field(1, 0), Field(1, 0), Field(1, 0), Field(1, 0), Field(1, 0), Field(1, 0)]
    + [Field(8, 10)]
  }

  /** A 15-bit group and its marker bit fill two bytes. */
  lemma MarkedGroup(x: nat)
    requires x < 0x8000
    ensures FieldBits([Field(15, x), Field(1, 1)]) == BitsOf([x / 0x80, x % 0x80 * 2 + 1])
  {
    hide ToBits, FieldBits, BitsOf;
    FieldBitsTwo(Field(15, x), Field(1, 1));
    assert Pow2(1) == 2;
    Join(x, 15, 1, 1);
    TwoBytes(2 * x + 1);
    BitsOfTwo(x / 0x80, x % 0x80 * 2 + 1);
  }

  lemma TaggedGroup(tag: nat, x: nat)
    requires tag < 16 && x < 8
    ensures FieldBits([Field(4, tag), Field(3, x), Field(1, 1)]) == BitsOf([tag * 16 + x * 2 + 1])
  {
    hide ToBits, FieldBits, BitsOf;
    FieldBitsThree(Field(4, tag), Field(3, x), Field(1, 1));
    assert Pow2(1) == 2 && Pow2(4) == 16;
    Join(x, 3, 1, 1);
    Join(tag, 4, 2 * x + 1, 4);
    BitsOfOne(tag * 16 + x * 2 + 1);
  }

  lemma StampsAgree(tag: nat, ts: nat)
    requires tag < 16
    ensures FieldBits(GbStamp(tag, ts)) == BitsOf(Stamp(tag, ts))
  {
    hide FieldBits, BitsOf;
    var t, x, y := ts / 0x4000_0000 % 8, ts / 0x8000 % 0x8000, ts % 0x8000;
    var f1 := [Field(4, tag), Field(3, t), Field(1, 1)];
    var f2 := [Field(15, x), Field(1, 1)];
    var f3 := [Field(15, y), Field(1, 1)];
    FieldBitsConcat(f1 + f2, f3);
    FieldBitsConcat(f1, f2);
    TaggedGroup(tag, t);
    MarkedGroup(x);
    MarkedGroup(y);
    var b1, b2, b3 := [tag * 16 + t * 2 + 1], [x / 0x80, x % 0x80 * 2 + 1], [y / 0x80, y % 0x80 * 2 + 1];
    BitsOfConcat(b1 + b2, b3);
    BitsOfConcat(b1, b2);
    StampGroups(ts);
    assert Stamp(tag, ts) == b1 + b2 + b3;
  }

  lemma StampGroups(ts: nat)
    ensures var x, y := ts / 0x8000 % 0x8000, ts % 0x8000;
            && x / 0x80 == ts / 0x40_0000 % 256 && x % 0x80 == ts / 0x8000 % 128
            && y / 0x80 == ts / 0x80 % 256 && y % 0x80 == ts % 128
  {
    var h := ts / 0x8000;
    Digits(h, 0x80, 0x100);
    Digits(ts, 0x8000, 0x80);
    Digits(ts, 0x80, 0x100);
  }

  lemma FixedPart(id: byte, n: nat)
    ensures FieldBits([Field(24, 1), Field(8, id), Field(16, n)]) == BitsOf([0, 0, 1, id] + Be16(n))
  {
    hide FieldBits, BitsOf, ToBits, Be16;
    FieldBitsThree(Field(24, 1), Field(8, id), Field(16, n));
    Powers();
    Join(0, 16, 1, 8);
    Join(0, 8, 0, 8);
    Be16Bits(n);
    BitsOfTwo(0, 0);
    BitsOfTwo(1, id);
    FourAndMore(id, Be16(n));
  }

  lemma FourAndMore(id: byte, s: seq<byte>)
    ensures BitsOf([0, 0, 1, id] + s) == BitsOf([0, 0]) + (BitsOf([1, id]) + BitsOf(s))
  {
    hide BitsOf;
    assert [0, 0, 1, id] + s == [0, 0] + ([1, id] + s);
    BitsOfConcat([0, 0], [1, id] + s);
    BitsOfConcat([1, id], s);
  }

  function ZeroFlags(n: nat): (r: seq<Field>)
    ensures |r| == n
  {
    if n == 0 then [] else [Field(1, 0)] + ZeroFlags(n - 1)
  }

  lemma {:induction false} ZeroFlagsBits(n: nat)
    ensures FieldBits(ZeroFlags(n)) == ToBits(0, n)
  {
    if n > 0 {
      ZeroFlagsBits(n - 1);
      Prepend(Field(1, 0), ZeroFlags(n - 1), 0, n - 1);
    }
  }

  lemma FlagsOne()
    ensures FieldBits([Field(2, 2), Field(2, 0), Field(1, 0), Field(1, 0), Field(1, 0), Field(1, 0)]) == BitsOf([0x80])
  {
    hide FieldBits, ToBits, BitsOf;
    var zeros := [Field(1, 0), Field(1, 0), Field(1, 0), Field(1, 0)];
    assert ZeroFlags(4) == zeros;
    ZeroFlagsBits(4);
    assert Pow2(4) == 16 && Pow2(6) == 64;
    Prepend(Field(2, 0), zeros, 0, 4);
    Prepend(Field(2, 2), [Field(2, 0)] + zeros, 0, 6);
    assert [Field(2, 2)] + ([Field(2, 0)] + zeros) ==
           [Field(2, 2), Field(2, 0), Field(1, 0), Field(1, 0), Field(1, 0), Field(1, 0)];
    BitsOfOne(0x80);
  }

  lemma FlagsTwo()
    ensures FieldBits([Field(1, 1), Field(1, 1), Field(1, 0), Field(1, 0),
                      Field(1, 0), Field(1, 0), Field(1, 0), Field(1, 0)])
            == BitsOf([0xC0])
  {
    hide FieldBits, ToBits, BitsOf;
    var zeros := [Field(1, 0), Field(1, 0), Field(1, 0), Field(1, 0), Field(1, 0), Field(1, 0)];
    assert ZeroFlags(6) == zeros;
    ZeroFlagsBits(6);
    assert Pow2(6) == 64 && Pow2(7) == 128;
    Prepend(Field(1, 1), zeros, 0, 6);
    Prepend(Field(1, 1), [Field(1, 1)] + zeros, 64, 7);
    assert [Field(1, 1)] + ([Field(1, 1)] + zeros)
        == [Field(1, 1), Field(1, 1), Field(1, 0), Field(1, 0), Field(1, 0), Field(1, 0), Field(1, 0), Field(1, 0)];
    BitsOfOne(0xC0);
  }

  /** The fields make up the header bytes, for every length and every pair of time stamps. */
  lemma FieldsAreHeader(id: byte, payloadLen: nat, pts: nat, dts: nat)
    ensures FieldBits(GbFields(id, payloadLen, pts, dts)) == BitsOf(HeaderBytes(id, payloadLen + 13, pts, dts))
  {
    hide FieldBits, BitsOf, GbStamp, Stamp;
    var n := payloadLen + 13;
    var f1 := [Field(24, 1), Field(8, id), Field(16, n)];
    var f2 := [Field(2, 2), Field(2, 0), Field(1, 0), Field(1, 0), Field(1, 0), Field(1, 0)];
    var f3 := [Field(1, 1), Field(1, 1), Field(1, 0), Field(1, 0), Field(1, 0), Field(1, 0), Field(1, 0), Field(1, 0)];
    var f4 := [Field(8, 10)];
    FieldBitsConcat(f1 + f2 + f3 + f4 + GbStamp(3, pts), GbStamp(1, dts));
    FieldBitsConcat(f1 + f2 + f3 + f4, GbStamp(3, pts));
    FieldBitsConcat(f1 + f2 + f3, f4);
    FieldBitsConcat(f1 + f2, f3);
    FieldBitsConcat(f1, f2);
    FixedPart(id, n);
    FlagsOne();
    FlagsTwo();
    ByteField(10);
    StampsAgree(3, pts);
    StampsAgree(1, dts);
    var b1 := [0, 0, 1, id] + Be16(n);
    assert HeaderBytes(id, n, pts, dts) == b1 + [0x80] + [0xC0] + [10] + Stamp(3, pts) + Stamp(1, dts);
    BitsOfConcat(b1 + [0x80] + [0xC0] + [10] + Stamp(3, pts), Stamp(1, dts));
    BitsOfConcat(b1 + [0x80] + [0xC0] + [10], Stamp(3, pts));
    BitsOfConcat(b1 + [0x80] + [0xC0], [10]);
    BitsOfConcat(b1 + [0x80], [0xC0]);
    BitsOfConcat(b1, [0x80]);
  }

  /**
   * The two writers put the same 152 bits exactly for the lengths that fit 16 bits, or that
   * happen to wrap to the zero the other writer puts in place of a longer one.
   */
  lemma WritersAgreeIff(id: byte, payloadLen: nat, pts: nat)
    ensures FieldBits(GbFields(id, payloadLen, pts, pts)) == BitsOf(MakeHeader(id, pts, payloadLen))
            <==> payloadLen + 13 <= 65535 || (payloadLen + 13) % 0x1_0000 == 0
  {
    hide FieldBits, BitsOf, GbFields, Stamp, Be16, LoadBe16;
    FieldsAreHeader(id, payloadLen, pts, pts);
    var n, short := payloadLen + 13, PacketLength(payloadLen);
    var a, b := HeaderBytes(id, n, pts, pts), MakeHeader(id, pts, payloadLen);
    assert a[4..6] == Be16(n) && b[4..6] == Be16(short);
    Be16Mod(n);
    Be16Mod(short);
    Be16RoundTrip(n);
    Be16RoundTrip(short);
    if BitsOf(a) == BitsOf(b) {
      BitsOfInjective(a, b);
    }
  }

  /** A length for which they differ: one writes 0 and the other 1. */
  lemma WritersDiffer(id: byte, pts: nat)
    ensures FieldBits(GbFields(id, 65524, pts, pts)) != BitsOf(MakeHeader(id, pts, 65524))
  {
    hide FieldBits, GbFields, BitsOf, MakeHeader;
    WritersAgreeIff(id, 65524, pts);
  }

  /** gb28181_make_pes_header: clear 19 bytes, then write the fields bit by bit. */
  method GbMakePesHeader(dest: array<byte>, id: byte, payloadLen: nat, pts: nat, dts: nat)
    requires dest.Length == HEADER_LEN && payloadLen + 13 < 0x8000_0000
    modifies dest
    ensures dest[..] == HeaderBytes(id, payloadLen + 13, pts, dts)
    ensures dts == pts && payloadLen + 13 <= 65535 ==> dest[..] == MakeHeader(id, pts, payloadLen)
  {
    hide FieldBits, HeaderBytes, BitsOf, GbFields;
    var i := 0;
    while i < HEADER_LEN
      invariant 0 <= i <= HEADER_LEN
    {
      dest[i] := 0;
      i := i + 1;
    }
    var w := new BitsBuffer(dest);
    FieldsFit(id, payloadLen, pts, dts);
    FieldsAreHeader(id, payloadLen, pts, dts);
    w.WriteAll(GbFields(id, payloadLen, pts, dts));
    BitsOfInjective(dest[..], HeaderBytes(id, payloadLen + 13, pts, dts));
  }

  lemma StampFits(tag: nat, ts: nat)
    requires tag < 16
    ensures Fits(GbStamp(tag, ts))
  {
  }

  lemma FixedFits(id: byte, payloadLen: nat)
    requires payloadLen + 13 < 0x8000_0000
    ensures Fits(GbFixed(id, payloadLen))
  {
    hide Fits;
    var a, b := [Field(24, 0x000001), Field(8, id), Field(16, payloadLen + 13)], Field(1, 0);
    var c := [Field(2, 2), Field(2, 0), b, b, b, b];
    var d := [Field(1, 1), Field(1, 1), b, b, b, b, b, b];
    SmallFit(a);
    SmallFit(c);
    SmallFit(d);
    SmallFit([Field(8, 10)]);
    FitsConcat(a, c);
    FitsConcat(a + c, d);
    FitsConcat(a + c + d, [Field(8, 10)]);
  }

  lemma SmallFit(fields: seq<Field>)
    requires forall i :: 0 <= i < |fields| ==> fields[i].count <= 24 && fields[i].value < 0x8000_0000
    ensures Fits(fields)
  {
  }

  lemma FieldsFit(id: byte, payloadLen: nat, pts: nat, dts: nat)
    requires payloadLen + 13 < 0x8000_0000
    ensures Fits(GbFields(id, payloadLen, pts, dts))
  {
    hide GbStamp, GbFixed, Fits;
    FixedFits(id, payloadLen);
    StampFits(3, pts);
    StampFits(1, dts);
    FitsConcat(GbFixed(id, payloadLen), GbStamp(3, pts));
    FitsConcat(GbFixed(id, payloadLen) + GbStamp(3, pts), GbStamp(1, dts));
  }
}
