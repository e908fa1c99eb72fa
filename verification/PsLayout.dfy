/** The output of the program stream multiplexer, bit by bit as section 2.5 of ISO/IEC 13818-1 tabulates it. */
module PsLayout {
  import opened Bytes
  import opened BitStrings
  import opened BitIo
  import opened BitFields
  import opened Pes
  import opened PsMux
  import opened PsRoundTrip
  import opened PsCodec

  // ---------------------------------------------------------------- the pack header

  /** Start code; system clock reference in three groups with markers, extension 0; rate; no stuffing. */
  function PackFields(pts: nat, rate: nat): seq<Field> {
    [Field(32, 0x0000_01BA)]
    + ([Field(2, 1), Field(3, pts / 0x4000_0000), Field(1, 1), Field(15, pts / 0x8000), Field(1, 1)]
       + [Field(15, pts), Field(1, 1), Field(9, 0), Field(1, 1)])
    + [Field(22, rate), Field(1, 1), Field(1, 1)]
    + [Field(5, 31), Field(3, 0)]
  }

  /** A 15-bit group lies across three bytes. */
  lemma Group15(v: nat)
    ensures FieldBits([Field(15, v)]) ==
            FieldBits([Field(2, v / 0x2000 % 4), Field(8, v / 0x20 % 256), Field(5, v % 32)])
  {
    hide FieldBits, ToBits, Pow2;
    Digits15(v);
    ThreeParts(v / 0x2000 % 4, v / 0x20 % 256, v % 32);
    LowBits15(v);
  }

  lemma Digits15(v: nat)
    ensures v % 0x8000 == (v / 0x2000 % 4 * 256 + v / 0x20 % 256) * 32 + v % 32
  {
    Digits(v, 0x20, 0x100);
    Digits(v, 0x2000, 4);
  }

  lemma ThreeParts(a: nat, b: nat, c: nat)
    requires b < 256 && c < 32
    ensures FieldBits([Field(2, a), Field(8, b), Field(5, c)]) == FieldBits([Field(15, (a * 256 + b) * 32 + c)])
  {
    hide FieldBits, Pow2;
    PowersTo8();
    MergeThree(Field(2, a), Field(8, b), Field(5, c), 256, 32);
  }

  lemma LowBits15(v: nat)
    ensures FieldBits([Field(15, v)]) == FieldBits([Field(15, v % 0x8000)])
  {
    hide FieldBits, ToBits, Pow2;
    Pow15();
    ToBitsMod(v, 15);
    FieldBitsOne(Field(15, v));
    FieldBitsOne(Field(15, v % 0x8000));
  }

  lemma Pow15()
    ensures Pow2(15) == 0x8000
  {
    PowersTo8();
    Pow2Add(8, 7);
  }

  lemma ScrLayout(pts: nat)
    ensures FieldBits([Field(2, 1), Field(3, pts / 0x4000_0000), Field(1, 1), Field(15, pts / 0x8000), Field(1, 1)]
                      + [Field(15, pts), Field(1, 1), Field(9, 0), Field(1, 1)]) == BitsOf(Scr(pts))
  {
    hide FieldBits, BitsOf, Pow2, ToBits;
    var one := Field(1, 1);
    var a, b := pts / 0x4000_0000, pts / 0x8000;
    var x := [Field(2, b / 0x2000 % 4), Field(8, b / 0x20 % 256), Field(5, b % 32)];
    var y := [Field(2, pts / 0x2000 % 4), Field(8, pts / 0x20 % 256), Field(5, pts % 32)];
    var z := [Field(2, 0), Field(7, 0)];
    Group15(b);
    Group15(pts);
    PowersTo8();
    Merge(Field(2, 0), Field(7, 0));
    ThreeBits(a);
    Replace([Field(2, 1)], [Field(3, a)], [Field(3, a % 8)],
            [one, Field(15, b), one, Field(15, pts), one, Field(9, 0), one]);
    Replace([Field(2, 1), Field(3, a % 8), one], [Field(15, b)], x, [one, Field(15, pts), one, Field(9, 0), one]);
    Replace([Field(2, 1), Field(3, a % 8), one] + x + [one], [Field(15, pts)], y, [one, Field(9, 0), one]);
    Replace([Field(2, 1), Field(3, a % 8), one] + x + [one] + y + [one], [Field(9, 0)], z, [one]);
    ScrRows(a % 8, b / 0x2000 % 4, b / 0x20 % 256, b % 32, pts / 0x2000 % 4, pts / 0x20 % 256, pts % 32);
    ScrBytes(pts);
    SameLists(one, a, b, pts, x, y, z);
  }

  lemma ThreeBits(a: nat)
    ensures FieldBits([Field(3, a)]) == FieldBits([Field(3, a % 8)])
  {
    hide FieldBits, ToBits, Pow2;
    PowersTo8();
    ToBitsMod(a, 3);
    FieldBitsOne(Field(3, a));
    FieldBitsOne(Field(3, a % 8));
  }

  /** The lists met on the way from the table to the bytes, written in two ways each. */
  lemma SameLists(one: Field, a: nat, b: nat, pts: nat, x: seq<Field>, y: seq<Field>, z: seq<Field>)
    ensures [Field(2, 1), Field(3, a), one, Field(15, b), one] + [Field(15, pts), one, Field(9, 0), one] ==
            [Field(2, 1)] + [Field(3, a)] + [one, Field(15, b), one, Field(15, pts), one, Field(9, 0), one]
    ensures [Field(2, 1)] + [Field(3, a % 8)] + [one, Field(15, b), one, Field(15, pts), one, Field(9, 0), one] ==
            [Field(2, 1), Field(3, a % 8), one] + [Field(15, b)] + [one, Field(15, pts), one, Field(9, 0), one]
    ensures [Field(2, 1), Field(3, a % 8), one] + x + [one, Field(15, pts), one, Field(9, 0), one] ==
            [Field(2, 1), Field(3, a % 8), one] + x + [one] + [Field(15, pts)] + [one, Field(9, 0), one]
    ensures [Field(2, 1), Field(3, a % 8), one] + x + [one] + y + [one, Field(9, 0), one] ==
            [Field(2, 1), Field(3, a % 8), one] + x + [one] + y + [one] + [Field(9, 0)] + [one]
  {
  }

  /** The six bytes of the clock reference. */
  lemma ScrRows(a: nat, b2: nat, b8: nat, b5: nat, c2: nat, c8: nat, c5: nat)
    requires a < 8 && b2 < 4 && b8 < 256 && b5 < 32 && c2 < 4 && c8 < 256 && c5 < 32
    ensures var one := Field(1, 1);
            FieldBits([Field(2, 1), Field(3, a), one] + [Field(2, b2), Field(8, b8), Field(5, b5)] + [one]
                      + [Field(2, c2), Field(8, c8), Field(5, c5)] + [one] + [Field(2, 0), Field(7, 0)] + [one])
            == BitsOf([0x44 + a * 8 + b2, b8, b5 * 8 + 4 + c2, c8, c5 * 8 + 4, 1])
  {
    hide FieldBits, BitsOf, Pow2;
    var one := Field(1, 1);
    PowersTo8();
    Byte4(Field(2, 1), Field(3, a), one, Field(2, b2), 0x44 + a * 8 + b2);
    ByteField(b8);
    Byte3(Field(5, b5), one, Field(2, c2), b5 * 8 + 4 + c2);
    ByteField(c8);
    Byte3(Field(5, c5), one, Field(2, 0), c5 * 8 + 4);
    Byte2(Field(7, 0), one, 1);
    var r1, r2 := [Field(2, 1), Field(3, a), one, Field(2, b2)], [Field(8, b8)];
    var r3, r4 := [Field(5, b5), one, Field(2, c2)], [Field(8, c8)];
    var r5, r6 := [Field(5, c5), one, Field(2, 0)], [Field(7, 0), one];
    var v1, v3, v5 := 0x44 + a * 8 + b2, b5 * 8 + 4 + c2, c5 * 8 + 4;
    Glue(r1, [v1], r2, [b8]);
    Glue(r1 + r2, [v1] + [b8], r3, [v3]);
    Glue(r1 + r2 + r3, [v1] + [b8] + [v3], r4, [c8]);
    Glue(r1 + r2 + r3 + r4, [v1] + [b8] + [v3] + [c8], r5, [v5]);
    Glue(r1 + r2 + r3 + r4 + r5, [v1] + [b8] + [v3] + [c8] + [v5], r6, [1]);
    assert [v1] + [b8] + [v3] + [c8] + [v5] + [1] == [v1, b8, v3, c8, v5, 1];
    assert r1 + r2 + r3 + r4 + r5 + r6 ==
           [Field(2, 1), Field(3, a), one] + [Field(2, b2), Field(8, b8), Field(5, b5)] + [one]
           + [Field(2, c2), Field(8, c8), Field(5, c5)] + [one] + [Field(2, 0), Field(7, 0)] + [one];
  }

  lemma ScrBytes(pts: nat)
    ensures var b := pts / 0x8000;
            Scr(pts) == [0x44 + pts / 0x4000_0000 % 8 * 8 + b / 0x2000 % 4, b / 0x20 % 256,
                         b % 32 * 8 + 4 + pts / 0x2000 % 4, pts / 0x20 % 256, pts % 32 * 8 + 4, 1]
  {
    Digits(pts, 0x8000, 0x2000);
    Digits(pts, 0x8000, 0x20);
  }

  lemma RateLayout(rate: nat)
    ensures FieldBits([Field(22, rate), Field(1, 1), Field(1, 1)]) ==
            BitsOf([rate / 0x4000 % 256, rate / 0x40 % 256, rate % 64 * 4 + 3])
  {
    hide FieldBits, BitsOf, Pow2, Be16;
    var one := Field(1, 1);
    PowersTo8();
    Merge(Field(16, rate / 64), Field(6, rate % 64));
    WordField(rate / 64);
    Byte3(Field(6, rate % 64), one, one, rate % 64 * 4 + 3);
    Glue([Field(16, rate / 64)], Be16(rate / 64), [Field(6, rate % 64), one, one], [rate % 64 * 4 + 3]);
    Replace([], [Field(16, rate / 64), Field(6, rate % 64)], [Field(22, rate)], [one, one]);
    assert [Field(16, rate / 64)] + [Field(6, rate % 64), one, one] ==
           [] + [Field(16, rate / 64), Field(6, rate % 64)] + [one, one];
    assert [] + [Field(22, rate)] + [one, one] == [Field(22, rate), one, one];
    RateBytes(rate);
  }

  lemma RateBytes(rate: nat)
    ensures Be16(rate / 64) + [rate % 64 * 4 + 3] == [rate / 0x4000 % 256, rate / 0x40 % 256, rate % 64 * 4 + 3]
  {
    Digits(rate, 64, 0x100);
  }

  lemma StartCode(id: byte)
    ensures FieldBits([Field(32, 0x100 + id)]) == BitsOf([0, 0, 1, id])
  {
    hide FieldBits, BitsOf;
    WordField(0x100 + id);
    Quotient(0x100 + id, 0x100, 1, id);
    assert Be32(0x100 + id) == [0, 0, 1, id];
  }

  /** The pack header, bit by bit. */
  lemma PackLayout(pts: nat, rate: nat)
    ensures FieldBits(PackFields(pts, rate)) == BitsOf(PackHeader(pts, rate))
  {
    hide FieldBits, BitsOf, Scr, Pow2;
    StartCode(0xBA);
    ScrLayout(pts);
    RateLayout(rate);
    PowersTo8();
    Byte2(Field(5, 31), Field(3, 0), 0xF8);
    var f1 := [Field(32, 0x0000_01BA)];
    var f2 := [Field(2, 1), Field(3, pts / 0x4000_0000), Field(1, 1), Field(15, pts / 0x8000), Field(1, 1)]
              + [Field(15, pts), Field(1, 1), Field(9, 0), Field(1, 1)];
    var f3, f4 := [Field(22, rate), Field(1, 1), Field(1, 1)], [Field(5, 31), Field(3, 0)];
    var b1, b2: seq<byte> := [0, 0, 1, 0xBA], Scr(pts);
    var b3 := [rate / 0x4000 % 256, rate / 0x40 % 256, rate % 64 * 4 + 3];
    Glue(f1, b1, f2, b2);
    Glue(f1 + f2, b1 + b2, f3, b3);
    Glue(f1 + f2 + f3, b1 + b2 + b3, f4, [0xF8]);
    assert b1 + b2 + b3 + [0xF8] == b1 + b2 + [rate / 0x4000 % 256, rate / 0x40 % 256, rate % 64 * 4 + 3, 0xF8];
  }

  // ---------------------------------------------------------------- the system header

  predicate Is(kind: byte, video: bool) { if video then IsVideo(kind) else IsAudio(kind) }

  /** The streams of one kind, by number. */
  function Chosen(kinds: seq<byte>, video: bool): set<nat> {
    set i: nat | i < |kinds| && Is(kinds[i], video)
  }

  /**
   * Start code, length; marker, rate bound, marker; how many audio streams, not fixed, not
   * constrained; both locks, marker, how many video streams; no packet rate restriction; and the
   * buffer bounds of all audio streams (64 units of 128 bytes) and all video streams (512 of 1024).
   */
  function SystemFields(p: Program): seq<Field> {
    [Field(32, 0x0000_01BB)] + [Field(16, 12)]
    + [Field(1, 1), Field(22, p.muxRate), Field(1, 1)]
    + [Field(6, |Chosen(p.kinds, false)|), Field(1, 0), Field(1, 0)]
    + [Field(1, 1), Field(1, 1), Field(1, 1), Field(5, |Chosen(p.kinds, true)|)]
    + [Field(8, 0xFF)]
    + ([Field(8, 0xB8)] + [Field(2, 3), Field(1, 0), Field(13, 64)])
    + ([Field(8, 0xB9)] + [Field(2, 3), Field(1, 1), Field(13, 512)])
  }

  /** The counting loop counts the streams of a kind. */
  lemma CountIsChosen(kinds: seq<byte>, video: bool)
    ensures CountKinds(kinds, video) == |Chosen(kinds, video)|
  {
    CountFrom(kinds, video, 0);
    assert kinds[0..] == kinds;
    assert (set i: nat | 0 <= i < |kinds| && Is(kinds[i], video)) == Chosen(kinds, video);
  }

  lemma {:induction false} CountFrom(kinds: seq<byte>, video: bool, from: nat)
    requires from <= |kinds|
    ensures CountKinds(kinds[from..], video) == |set i: nat | from <= i < |kinds| && Is(kinds[i], video)|
    decreases |kinds| - from
  {
    hide Is, CountKinds;
    var here := set i: nat | from <= i < |kinds| && Is(kinds[i], video);
    CountStep(kinds, video, from);
    if from == |kinds| {
      assert here == {};
    } else {
      CountFrom(kinds, video, from + 1);
      var later := set i: nat | from + 1 <= i < |kinds| && Is(kinds[i], video);
      assert here == if Is(kinds[from], video) then later + {from} else later;
    }
  }

  lemma CountStep(kinds: seq<byte>, video: bool, from: nat)
    requires from <= |kinds|
    ensures CountKinds(kinds[from..], video) ==
            if from == |kinds| then 0
            else CountKinds(kinds[from + 1..], video) + if Is(kinds[from], video) then 1 else 0
  {
    hide IsVideo, IsAudio;
    assert from < |kinds| ==> kinds[from..][1..] == kinds[from + 1..];
  }

  lemma BoundLayout(rate: nat)
    ensures FieldBits([Field(1, 1), Field(22, rate), Field(1, 1)]) ==
            BitsOf([0x80 + rate / 0x8000 % 128, rate / 0x80 % 256, rate % 128 * 2 + 1])
  {
    hide FieldBits, BitsOf, Pow2;
    var one, a, b, c := Field(1, 1), rate / 0x8000 % 128, rate / 0x80 % 256, rate % 128;
    PowersTo8();
    Byte2(one, Field(7, a), 0x80 + a);
    ByteField(b);
    Byte2(Field(7, c), one, c * 2 + 1);
    Glue([one, Field(7, a)], [0x80 + a], [Field(8, b)], [b]);
    Glue([one, Field(7, a)] + [Field(8, b)], [0x80 + a] + [b], [Field(7, c), one], [c * 2 + 1]);
    Group22(rate);
    Replace([one], [Field(22, rate)], [Field(7, a), Field(8, b), Field(7, c)], [one]);
    assert [one] + [Field(22, rate)] + [one] == [one, Field(22, rate), one];
    assert [one, Field(7, a)] + [Field(8, b)] + [Field(7, c), one] ==
           [one] + [Field(7, a), Field(8, b), Field(7, c)] + [one];
    assert [0x80 + a] + [b] + [c * 2 + 1] == [0x80 + a, b, c * 2 + 1];
  }

  lemma Group22(v: nat)
    ensures FieldBits([Field(22, v)]) ==
            FieldBits([Field(7, v / 0x8000 % 128), Field(8, v / 0x80 % 256), Field(7, v % 128)])
  {
    hide FieldBits, ToBits, Pow2;
    var a, b, c := v / 0x8000 % 128, v / 0x80 % 256, v % 128;
    Digits22(v);
    PartsOf22(a, b, c);
    Pow22();
    ToBitsMod(v, 22);
    FieldBitsOne(Field(22, v));
    FieldBitsOne(Field(22, v % 0x40_0000));
  }

  lemma Digits22(v: nat)
    ensures v % 0x40_0000 == (v / 0x8000 % 128 * 256 + v / 0x80 % 256) * 128 + v % 128
  {
    Digits(v, 0x80, 0x100);
    Digits(v, 0x8000, 128);
  }

  lemma PartsOf22(a: nat, b: nat, c: nat)
    requires b < 256 && c < 128
    ensures FieldBits([Field(7, a), Field(8, b), Field(7, c)]) == FieldBits([Field(22, (a * 256 + b) * 128 + c)])
  {
    hide FieldBits, Pow2;
    PowersTo8();
    MergeThree(Field(7, a), Field(8, b), Field(7, c), 256, 128);
  }

  lemma Pow22()
    ensures Pow2(22) == 0x40_0000
  {
    Pow15();
    PowersTo8();
    Pow2Add(15, 7);
  }

  /** Reserved bits, scale and size of a buffer bound below 8192. */
  lemma BufferLayout(id: byte, scale: nat, size: nat)
    requires scale < 2 && size < 0x2000
    ensures FieldBits([Field(8, id)] + [Field(2, 3), Field(1, scale), Field(13, size)]) ==
            BitsOf([id, 0xC0 + 32 * scale + size / 256, size % 256])
  {
    hide FieldBits, BitsOf, Pow2;
    PowersTo8();
    var hi, lo, v := Field(5, size / 256), Field(8, size % 256), 0xC0 + 32 * scale + size / 256;
    var front := [Field(2, 3), Field(1, scale)];
    ByteField(id);
    ByteField(size % 256);
    Byte3(Field(2, 3), Field(1, scale), hi, v);
    Merge(hi, lo);
    Replace(front, [hi, lo], [Field(13, size)], []);
    assert front + [Field(13, size)] + [] == [Field(2, 3), Field(1, scale), Field(13, size)];
    assert front + [hi, lo] + [] == [Field(2, 3), Field(1, scale), hi] + [lo];
    Glue([Field(2, 3), Field(1, scale), hi], [v], [lo], [size % 256]);
    Glue([Field(8, id)], [id], [Field(2, 3), Field(1, scale), Field(13, size)], [v] + [size % 256]);
    assert [id] + ([v] + [size % 256]) == [id, v, size % 256];
  }

  lemma CountLayout(audio: nat, video: nat)
    requires audio < 64 && video < 32
    ensures FieldBits([Field(6, audio), Field(1, 0), Field(1, 0)]
                      + [Field(1, 1), Field(1, 1), Field(1, 1), Field(5, video)] + [Field(8, 0xFF)]) ==
            BitsOf([audio * 4, 0xE0 + video, 0xFF])
  {
    hide FieldBits, BitsOf, Pow2;
    PowersTo8();
    var f1, f2 := [Field(6, audio), Field(1, 0), Field(1, 0)], [Field(1, 1), Field(1, 1), Field(1, 1), Field(5, video)];
    Byte3(Field(6, audio), Field(1, 0), Field(1, 0), audio * 4);
    Byte4(Field(1, 1), Field(1, 1), Field(1, 1), Field(5, video), 0xE0 + video);
    ByteField(0xFF);
    Glue(f1, [audio * 4], f2, [0xE0 + video]);
    Glue(f1 + f2, [audio * 4] + [0xE0 + video], [Field(8, 0xFF)], [0xFF]);
    assert [audio * 4] + [0xE0 + video] + [0xFF] == [audio * 4, 0xE0 + video, 0xFF];
  }

  /** The system header, bit by bit. */
  lemma SystemLayout(p: Program)
    requires p.Valid()
    ensures FieldBits(SystemFields(p)) == BitsOf(SystemHeader(p))
  {
    hide FieldBits, BitsOf, Be16, Chosen, CountKinds;
    var rate, audio, video := p.muxRate, |Chosen(p.kinds, false)|, |Chosen(p.kinds, true)|;
    CountIsChosen(p.kinds, false);
    CountIsChosen(p.kinds, true);
    StartCode(0xBB);
    WordField(12);
    BoundLayout(rate);
    CountLayout(audio, video);
    BufferLayout(0xB8, 0, 64);
    BufferLayout(0xB9, 1, 512);
    var f1, b1: seq<byte> := [Field(32, 0x0000_01BB)] + [Field(16, 12)], [0, 0, 1, 0xBB] + Be16(12);
    var f2 := [Field(1, 1), Field(22, rate), Field(1, 1)];
    var b2 := [0x80 + rate / 0x8000 % 128, rate / 0x80 % 256, rate % 128 * 2 + 1];
    var f3 := [Field(6, audio), Field(1, 0), Field(1, 0)]
              + [Field(1, 1), Field(1, 1), Field(1, 1), Field(5, video)] + [Field(8, 0xFF)];
    var b3: seq<byte> := [audio * 4, 0xE0 + video, 0xFF];
    var f4 := [Field(8, 0xB8)] + [Field(2, 3), Field(1, 0), Field(13, 64)];
    var f5 := [Field(8, 0xB9)] + [Field(2, 3), Field(1, 1), Field(13, 512)];
    Glue([Field(32, 0x0000_01BB)], [0, 0, 1, 0xBB], [Field(16, 12)], Be16(12));
    Glue(f1, b1, f2, b2);
    Glue(f1 + f2, b1 + b2, f3, b3);
    Glue(f1 + f2 + f3, b1 + b2 + b3, f4, [0xB8, 0xC0, 0x40]);
    Glue(f1 + f2 + f3 + f4, b1 + b2 + b3 + [0xB8, 0xC0, 0x40], f5, [0xB9, 0xE2, 0x00]);
    assert SystemFields(p) == f1 + f2 + f3 + f4 + f5;
  }

  // ---------------------------------------------------------------- the stream map

  /** Stream type, id and no descriptors, for every stream. */
  function EntryFields(kinds: seq<byte>, from: nat): seq<Field>
    requires from <= |kinds|
    decreases |kinds| - from
  {
    if from == |kinds| then []
    else [Field(8, kinds[from])] + [Field(8, (if IsVideo(kinds[from]) then 0xE0 else 0xC0) + from)] + [Field(16, 0)]
         + EntryFields(kinds, from + 1)
  }

  /**
   * Start code, length; currently applicable, reserved bits, version 0; reserved bits, marker; no
   * program descriptors; the entries behind their length; and a checksum of zero.
   */
  function MapFields(p: Program): seq<Field> {
    [Field(32, 0x0000_01BC)] + [Field(16, 10 + 4 * |p.kinds|)]
    + [Field(1, 1), Field(2, 3), Field(5, 0)] + [Field(7, 127), Field(1, 1)]
    + [Field(16, 0)] + [Field(16, 4 * |p.kinds|)] + EntryFields(p.kinds, 0) + [Field(32, 0)]
  }

  lemma {:induction false} EntriesLayout(p: Program, from: nat)
    requires p.Valid() && from <= |p.kinds|
    ensures FieldBits(EntryFields(p.kinds, from)) == BitsOf(MapEntries(p.kinds, from))
    decreases |p.kinds| - from
  {
    hide FieldBits, BitsOf, StreamId, IsVideo, IsAudio;
    if from == |p.kinds| {
      NoFields();
    } else {
      var kind, id := p.kinds[from], StreamId(p.kinds[from], 0, from);
      MediaIds(p, from);
      ByteField(kind);
      ByteField(id);
      TwoZeros();
      EntriesLayout(p, from + 1);
      Glue([Field(8, kind)], [kind], [Field(8, id)], [id]);
      Glue([Field(8, kind)] + [Field(8, id)], [kind] + [id], [Field(16, 0)], [0, 0]);
      Glue([Field(8, kind)] + [Field(8, id)] + [Field(16, 0)], [kind] + [id] + [0, 0],
           EntryFields(p.kinds, from + 1), MapEntries(p.kinds, from + 1));
      assert [kind] + [id] + [0, 0] == MapEntry(kind, from);
    }
  }

  lemma TwoZeros()
    ensures FieldBits([Field(16, 0)]) == BitsOf([0, 0])
    ensures FieldBits([Field(32, 0)]) == BitsOf([0, 0, 0, 0])
  {
    hide FieldBits, BitsOf;
    WordField(0);
    assert Be16(0) == [0, 0] && Be32(0) == [0, 0, 0, 0];
  }

  lemma MapVersion()
    ensures FieldBits([Field(1, 1), Field(2, 3), Field(5, 0)] + [Field(7, 127), Field(1, 1)]) == BitsOf([0xE0, 0xFF])
  {
    hide FieldBits, BitsOf, Pow2;
    PowersTo8();
    Byte3(Field(1, 1), Field(2, 3), Field(5, 0), 0xE0);
    Byte2(Field(7, 127), Field(1, 1), 0xFF);
    Glue([Field(1, 1), Field(2, 3), Field(5, 0)], [0xE0], [Field(7, 127), Field(1, 1)], [0xFF]);
    assert [0xE0] + [0xFF] == [0xE0, 0xFF];
  }

  /** The stream map, bit by bit. */
  lemma MapLayout(p: Program)
    requires p.Valid()
    ensures FieldBits(MapFields(p)) == BitsOf(StreamMapBytes(p))
  {
    hide FieldBits, BitsOf, Be16, EntryFields, MapEntries;
    var n := |p.kinds|;
    StartCode(0xBC);
    WordField(10 + 4 * n);
    MapVersion();
    TwoZeros();
    WordField(4 * n);
    EntriesLayout(p, 0);
    var f1, b1: seq<byte> := [Field(32, 0x0000_01BC)] + [Field(16, 10 + 4 * n)], [0, 0, 1, 0xBC] + Be16(10 + 4 * n);
    var f2 := [Field(1, 1), Field(2, 3), Field(5, 0)] + [Field(7, 127), Field(1, 1)];
    var f3, b3 := f1 + f2 + [Field(16, 0)], b1 + [0xE0, 0xFF] + [0, 0];
    Glue([Field(32, 0x0000_01BC)], [0, 0, 1, 0xBC], [Field(16, 10 + 4 * n)], Be16(10 + 4 * n));
    Glue(f1, b1, f2, [0xE0, 0xFF]);
    Glue(f1 + f2, b1 + [0xE0, 0xFF], [Field(16, 0)], [0, 0]);
    Glue(f3, b3, [Field(16, 4 * n)], Be16(4 * n));
    Glue(f3 + [Field(16, 4 * n)], b3 + Be16(4 * n), EntryFields(p.kinds, 0), MapEntries(p.kinds, 0));
    Glue(f3 + [Field(16, 4 * n)] + EntryFields(p.kinds, 0), b3 + Be16(4 * n) + MapEntries(p.kinds, 0),
         [Field(32, 0)], [0, 0, 0, 0]);
    assert MapFields(p) == f3 + [Field(16, 4 * n)] + EntryFields(p.kinds, 0) + [Field(32, 0)];
    assert b3 == b1 + [0xE0, 0xFF, 0, 0];
  }

  // ---------------------------------------------------------------- calls and runs

  /** The PES packets of a frame from byte `pos` on: a header and `n` bytes each, or what is left. */
  function MediaBits(id: byte, pts: nat, data: seq<byte>, n: nat, pos: nat): seq<bool>
    requires n > 0
    decreases |data| - pos
  {
    if pos >= |data| then []
    else
      var piece := data[pos..Min(|data|, pos + n)];
      FieldBits(GbFields(id, |piece|, pts, pts)) + BitsOf(piece) + MediaBits(id, pts, data, n, pos + n)
  }

  /** The length of a piece is the permitted length nearest to the wanted one. */
  lemma PieceLengthNearest(wanted: int, other: nat)
    requires 1000 <= other <= 65000
    ensures var n := PieceLength(wanted);
            1000 <= n <= 65000 && Distance(n, wanted) <= Distance(other, wanted) && (other == wanted ==> n == wanted)
  {
  }

  function Distance(a: int, b: int): nat { if a < b then b - a else a - b }

  /** One call: pack header, before a key frame system header and stream map, then the frame in pieces. */
  function CallBits(frame: Frame, p: Program): seq<bool>
    requires p.Valid() && frame.stream < |p.kinds|
  {
    FieldBits(PackFields(frame.pts, p.muxRate))
    + (if frame.key then FieldBits(SystemFields(p)) + FieldBits(MapFields(p)) else [])
    + MediaBits((if IsVideo(p.kinds[frame.stream]) then 0xE0 else 0xC0) + frame.stream, frame.pts, frame.data,
                PieceLength(frame.pesLength), 0)
  }

  function RunBits(frames: seq<Frame>, p: Program): seq<bool>
    requires p.Valid() && AllFit(frames, |p.kinds|)
  {
    if frames == [] then [] else CallBits(frames[0], p) + RunBits(frames[1..], p)
  }

  lemma {:induction false} MediaLayout(id: byte, pts: nat, data: seq<byte>, n: nat, pos: nat)
    requires id >= 0xC0 && 0 < n && n + 13 <= 65535 && pos <= |data|
    ensures BitsOf(MediaBytes(id, pts, data[pos..], n)) == MediaBits(id, pts, data, n, pos)
    decreases |data| - pos
  {
    hide BitsOf, FieldBits, MakeHeader, GbFields, MediaBytes;
    if pos == |data| {
      MediaNone(id, pts, n);
      NoFields();
    } else {
      var rest, k := data[pos..], Min(|data| - pos, n);
      var piece := data[pos..pos + k];
      var head := MakeHeader(id, pts, k);
      var later := MediaBytes(id, pts, rest[k..], n);
      FirstPiece(id, pts, data, n, pos);
      assert rest[k..] == data[pos + k..];
      BitsOfConcat(head + piece, later);
      BitsOfConcat(head, piece);
      WritersAgreeIff(id, k, pts);
      MediaLayout(id, pts, data, n, pos + k);
      MediaBitsStep(id, pts, data, n, pos);
    }
  }

  lemma FirstPiece(id: byte, pts: nat, data: seq<byte>, n: nat, pos: nat)
    requires id >= 0xC0 && 0 < n && n + 13 <= 65535 && pos < |data|
    ensures var k := Min(|data| - pos, n);
            MediaBytes(id, pts, data[pos..], n) ==
              MakeHeader(id, pts, k) + data[pos..pos + k] + MediaBytes(id, pts, data[pos..][k..], n)
  {
    hide MediaBytes, MakeHeader;
    var rest, k := data[pos..], Min(|data| - pos, n);
    MediaStep([], id, pts, rest, n);
    var bytes, head := MediaBytes(id, pts, rest, n), MakeHeader(id, pts, k) + rest[..k];
    assert [] + bytes == bytes && [] + head == head && rest[..k] == data[pos..pos + k];
  }

  lemma MediaBitsStep(id: byte, pts: nat, data: seq<byte>, n: nat, pos: nat)
    requires 0 < n && pos < |data|
    ensures var k := Min(|data| - pos, n);
            MediaBits(id, pts, data, n, pos) ==
              FieldBits(GbFields(id, k, pts, pts)) + BitsOf(data[pos..pos + k]) + MediaBits(id, pts, data, n, pos + k)
  {
    hide FieldBits, BitsOf, GbFields;
  }

  lemma CallLayout(frame: Frame, p: Program)
    requires p.Valid() && frame.stream < |p.kinds|
    ensures AllValid(FramePacks(frame, p)) && BitsOf(StreamBytes(FramePacks(frame, p))) == CallBits(frame, p)
  {
    hide BitsOf, FieldBits, PackFields, SystemFields, MapFields, MediaBits, MediaBytes, PackHeader, SystemHeader,
         StreamMapBytes, StreamBytes, FramePacks, StreamId;
    FrameBytes(frame, p);
    MediaIds(p, frame.stream);
    var id, n := StreamId(p.kinds[frame.stream], 0, frame.stream), PieceLength(frame.pesLength);
    var a, c := PackHeader(frame.pts, p.muxRate), MediaBytes(id, frame.pts, frame.data, n);
    var b := if frame.key then SystemHeader(p) + StreamMapBytes(p) else [];
    PackLayout(frame.pts, p.muxRate);
    MediaLayout(id, frame.pts, frame.data, n, 0);
    assert frame.data[0..] == frame.data;
    BitsOfConcat(a + b, c);
    BitsOfConcat(a, b);
    if frame.key {
      SystemLayout(p);
      MapLayout(p);
      BitsOfConcat(SystemHeader(p), StreamMapBytes(p));
    } else {
      NoFields();
    }
  }

  /** Every run, bit by bit. */
  lemma {:induction false} RunLayout(frames: seq<Frame>, p: Program)
    requires p.Valid() && AllFit(frames, |p.kinds|)
    ensures BitsOf(RunBytes(frames, p)) == RunBits(frames, p)
  {
    hide BitsOf, CallBits, FramePacks, StreamBytes;
    RunPacksValid(frames, p);
    if frames == [] {
      NoFields();
      NoStream();
    } else {
      CallLayout(frames[0], p);
      RunPacksValid(frames[1..], p);
      RunLayout(frames[1..], p);
      StreamConcat(FramePacks(frames[0], p), RunPacks(frames[1..], p));
      BitsOfConcat(StreamBytes(FramePacks(frames[0], p)), RunBytes(frames[1..], p));
    }
  }

  lemma NoStream()
    ensures StreamBytes([]) == []
  {
  }
}
