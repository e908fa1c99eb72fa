/**
 * The checksum as Annex A of ISO/IEC 13818-1 defines it, by polynomial division over GF(2), and the
 * proof that the shift register of CRC_encode computes it.
 */
module CrcDivision {
  import opened Bytes
  import opened BitStrings
  import opened Crc

  /** The exponents of the generator below x^32. */
  const EXPONENTS := {26, 23, 22, 16, 12, 11, 10, 8, 7, 5, 4, 2, 1, 0}

  /** Its coefficients, highest first, without the leading one. */
  function Generator(): (g: seq<bool>)
    ensures |g| == 32
  {
    seq(32, k requires 0 <= k < 32 => 31 - k in EXPONENTS)
  }

  function Repeat(b: bool, n: nat): (r: seq<bool>)
    ensures |r| == n
  {
    seq(n, _ => b)
  }

  /** Adds `g` to the highest coefficients. */
  function XorFront(bits: seq<bool>, g: seq<bool>): (r: seq<bool>)
    requires |g| <= |bits|
    ensures |r| == |bits|
  {
    seq(|bits|, k requires 0 <= k < |bits| => if k < |g| then bits[k] != g[k] else bits[k])
  }

  /** Long division, one coefficient at a time. */
  function Remainder(bits: seq<bool>): (r: seq<bool>)
    requires |bits| >= 32
    ensures |r| == 32
    decreases |bits|
  {
    if |bits| == 32 then bits
    else Remainder(if bits[0] then XorFront(bits[1..], Generator()) else bits[1..])
  }

  /** What is divided: the message and 32 zeros, the first 32 coefficients inverted. */
  function Dividend(message: seq<bool>): (r: seq<bool>)
    ensures |r| == |message| + 32
  {
    XorFront(message + Repeat(false, 32), Repeat(true, 32))
  }

  // ---------------------------------------------------------------- bits of a register

  lemma TopBitsStep(c: bv32, n: nat)
    ensures TopBits(c, n + 1) == [Top(c)] + TopBits(Doubled(c), n)
  {
    hide Top, Doubled;
  }

  lemma NoTopBits(c: bv32)
    ensures TopBits(c, 0) == []
  {
  }

  lemma XorTop(x: bv32, y: bv32)
    ensures Top(Xor(x, y)) == (Top(x) != Top(y))
  {
  }

  lemma {:induction false} XorBits(x: bv32, y: bv32, n: nat, k: nat)
    requires k < n
    ensures TopBits(Xor(x, y), n)[k] == (TopBits(x, n)[k] != TopBits(y, n)[k])
    decreases n
  {
    hide TopBits, Xor, Top, Doubled;
    TopBitsStep(Xor(x, y), n - 1);
    TopBitsStep(x, n - 1);
    TopBitsStep(y, n - 1);
    XorTop(x, y);
    DoubledXor(x, y);
    if k > 0 {
      XorBits(Doubled(x), Doubled(y), n - 1, k - 1);
    }
  }

  lemma {:induction false} TopBitsConcat(c: bv32, d: bv32, n: nat, m: nat)
    requires d == Times(c, n)
    ensures TopBits(c, n + m) == TopBits(c, n) + TopBits(d, m)
    decreases n
  {
    hide TopBits, Top, Doubled;
    NoTopBits(c);
    if n == 0 {
      assert [] + TopBits(c, m) == TopBits(c, m);
    } else {
      TopBitsStep(c, n - 1 + m);
      TopBitsStep(c, n - 1);
      TopBitsConcat(Doubled(c), d, n - 1, m);
      var rest := TopBits(Doubled(c), n - 1);
      assert [Top(c)] + (rest + TopBits(d, m)) == [Top(c)] + rest + TopBits(d, m);
    }
  }

  /** Shifted `n` times. */
  function Times(c: bv32, n: nat): bv32
    decreases n
  {
    if n == 0 then c else Times(Doubled(c), n - 1)
  }

  lemma EightTimes(c: bv32)
    ensures Times(c, 8) == c << 8
  {
    hide Doubled;
    var c1 := Doubled(c);
    var c2 := Doubled(c1);
    var c3 := Doubled(c2);
    var c4 := Doubled(c3);
    var c5 := Doubled(c4);
    var c6 := Doubled(c5);
    var c7 := Doubled(c6);
    var c8 := Doubled(c7);
    assert Times(c8, 0) == c8;
    assert Times(c7, 1) == c8;
    assert Times(c6, 2) == c8;
    assert Times(c5, 3) == c8;
    assert Times(c4, 4) == c8;
    assert Times(c3, 5) == c8;
    assert Times(c2, 6) == c8;
    assert Times(c1, 7) == c8;
    DoubledEight(c);
  }

  lemma RegisterSplit(c: bv32, c1: bv32, c2: bv32, c3: bv32)
    requires c1 == Times(c, 8) && c2 == Times(c1, 8) && c3 == Times(c2, 8)
    ensures TopBits(c, 32) == TopBits(c, 8) + (TopBits(c1, 8) + (TopBits(c2, 8) + TopBits(c3, 8)))
  {
    hide TopBits, Times;
    TopBitsConcat(c, c1, 8, 24);
    TopBitsConcat(c1, c2, 8, 16);
    TopBitsConcat(c2, c3, 8, 8);
  }

  lemma ByteSteps(c: bv32)
    ensures c << 8 == Times(c, 8) && c << 16 == Times(c << 8, 8) && c << 24 == Times(c << 16, 8)
    ensures Times(c << 24, 8) == 0
  {
    hide Times;
    EightTimes(c);
    EightTimes(c << 8);
    EightTimes(c << 16);
    EightTimes(c << 24);
    Shifts(c);
  }

  /** The four bytes of a register, in a row. */
  lemma RegisterBytes(c: bv32)
    ensures TopBits(c, 32) ==
            TopBits(c, 8) + (TopBits(c << 8, 8) + (TopBits(c << 16, 8) + TopBits(c << 24, 8)))
  {
    hide TopBits, Times;
    ByteSteps(c);
    RegisterSplit(c, c << 8, c << 16, c << 24);
  }

  lemma CrcBytesBits(c: bv32)
    ensures BitsOf(CrcBytes(c)) == TopBits(c, 32)
  {
    hide TopBits, BitsOf, Pack;
    FourBytes(TopBits(c, 8), TopBits(c << 8, 8), TopBits(c << 16, 8), TopBits(c << 24, 8));
    RegisterBytes(c);
  }

  /** After a shift the bits have moved up by one, and a zero has come in. */
  lemma DoubledBits(c: bv32)
    ensures TopBits(Doubled(c), 32) == TopBits(c, 32)[1..] + [false]
  {
    hide TopBits, Doubled, Times, Top;
    TopBitsStep(c, 32);
    TopBitsStep(c, 31);
    ShiftedOut(c);
    TopBitsConcat(Doubled(c), Times(Doubled(c), 31), 31, 1);
    TopBitsStep(Times(Doubled(c), 31), 0);
    NoTopBits(Doubled(Times(Doubled(c), 31)));
    assert [Top(Times(Doubled(c), 31))] + [] == [false];
    assert TopBits(c, 32)[1..] == TopBits(Doubled(c), 31);
  }

  lemma {:induction false} TimesAdd(c: bv32, n: nat, m: nat)
    ensures Times(c, n + m) == Times(Times(c, n), m)
    decreases n
  {
    hide Doubled;
    if n > 0 {
      TimesAdd(Doubled(c), n - 1, m);
    }
  }

  lemma ShiftedOut(c: bv32)
    ensures !Top(Times(Doubled(c), 31))
  {
    hide Times, Doubled, Top;
    TimesStep(c, 31);
    ByteSteps(c);
    AllOut(c, c << 8, c << 16, c << 24);
    ZeroTop();
  }

  lemma AllOut(c: bv32, c1: bv32, c2: bv32, c3: bv32)
    requires c1 == Times(c, 8) && c2 == Times(c1, 8) && c3 == Times(c2, 8)
    ensures Times(c, 32) == Times(c3, 8)
  {
    hide Times;
    TimesAdd(c, 8, 24);
    TimesAdd(c1, 8, 16);
    TimesAdd(c2, 8, 8);
  }

  lemma TimesStep(c: bv32, n: nat)
    ensures Times(c, n + 1) == Times(Doubled(c), n)
  {
  }

  lemma ZeroTop()
    ensures !Top(0)
  {
  }

  // ---------------------------------------------------------------- the generator

  lemma PolyByte0()
    ensures TopBits(0x04c11db7, 8) == [false, false, false, false, false, true, false, false]
  {
    hide TopBits;
    TopBitsStep(0x04c11db7, 7);
    TopBitsStep(0x09823b6e, 6);
    TopBitsStep(0x130476dc, 5);
    TopBitsStep(0x2608edb8, 4);
    TopBitsStep(0x4c11db70, 3);
    TopBitsStep(0x9823b6e0, 2);
    TopBitsStep(0x30476dc0, 1);
    TopBitsStep(0x608edb80, 0);
    NoTopBits(0xc11db700);
  }

  lemma PolyByte1()
    ensures TopBits(0xc11db700, 8) == [true, true, false, false, false, false, false, true]
  {
    hide TopBits;
    TopBitsStep(0xc11db700, 7);
    TopBitsStep(0x823b6e00, 6);
    TopBitsStep(0x0476dc00, 5);
    TopBitsStep(0x08edb800, 4);
    TopBitsStep(0x11db7000, 3);
    TopBitsStep(0x23b6e000, 2);
    TopBitsStep(0x476dc000, 1);
    TopBitsStep(0x8edb8000, 0);
    NoTopBits(0x1db70000);
  }

  lemma PolyByte2()
    ensures TopBits(0x1db70000, 8) == [false, false, false, true, true, true, false, true]
  {
    hide TopBits;
    TopBitsStep(0x1db70000, 7);
    TopBitsStep(0x3b6e0000, 6);
    TopBitsStep(0x76dc0000, 5);
    TopBitsStep(0xedb80000, 4);
    TopBitsStep(0xdb700000, 3);
    TopBitsStep(0xb6e00000, 2);
    TopBitsStep(0x6dc00000, 1);
    TopBitsStep(0xdb800000, 0);
    NoTopBits(0xb7000000);
  }

  lemma PolyByte3()
    ensures TopBits(0xb7000000, 8) == [true, false, true, true, false, true, true, true]
  {
    hide TopBits;
    TopBitsStep(0xb7000000, 7);
    TopBitsStep(0x6e000000, 6);
    TopBitsStep(0xdc000000, 5);
    TopBitsStep(0xb8000000, 4);
    TopBitsStep(0x70000000, 3);
    TopBitsStep(0xe0000000, 2);
    TopBitsStep(0xc0000000, 1);
    TopBitsStep(0x80000000, 0);
    NoTopBits(0x00000000);
  }

  /** The constant of CRC_encode is the generator. */
  lemma PolyIsGenerator()
    ensures TopBits(POLY, 32) == Generator()
  {
    hide TopBits;
    RegisterBytes(POLY);
    PolyByte0();
    PolyByte1();
    PolyByte2();
    PolyByte3();
    assert POLY << 8 == 0xc11db700 && POLY << 16 == 0x1db70000 && POLY << 24 == 0xb7000000;
  }

  predicate HighOnes(c: bv32) { c & 0xff00_0000 == 0xff00_0000 }

  lemma EightTops(c: bv32)
    requires HighOnes(c)
    ensures Top(c) && Top(Doubled(c)) && Top(Doubled(Doubled(c))) && Top(Doubled(Doubled(Doubled(c))))
    ensures Top(Doubled(Doubled(Doubled(Doubled(c))))) && Top(Doubled(Doubled(Doubled(Doubled(Doubled(c))))))
    ensures Top(Doubled(Doubled(Doubled(Doubled(Doubled(Doubled(c)))))))
    ensures Top(Doubled(Doubled(Doubled(Doubled(Doubled(Doubled(Doubled(c))))))))
  {
  }

  lemma FullByte(c: bv32)
    requires HighOnes(c)
    ensures TopBits(c, 8) == Repeat(true, 8)
  {
    hide TopBits, Top, Doubled, HighOnes;
    EightTops(c);
    var c1 := Doubled(c);
    var c2 := Doubled(c1);
    var c3 := Doubled(c2);
    var c4 := Doubled(c3);
    var c5 := Doubled(c4);
    var c6 := Doubled(c5);
    var c7 := Doubled(c6);
    TopBitsStep(c, 7);
    TopBitsStep(c1, 6);
    TopBitsStep(c2, 5);
    TopBitsStep(c3, 4);
    TopBitsStep(c4, 3);
    TopBitsStep(c5, 2);
    TopBitsStep(c6, 1);
    TopBitsStep(c7, 0);
    NoTopBits(Doubled(c7));
  }

  /** The register starts with ones. */
  lemma StartBits()
    ensures TopBits(START, 32) == Repeat(true, 32)
  {
    hide TopBits;
    RegisterBytes(START);
    FullByte(START);
    FullByte(START << 8);
    FullByte(START << 16);
    FullByte(START << 24);
  }

  // ---------------------------------------------------------------- the division

  /** The dividend when the register is `c` and the bits are still to come. */
  function View(c: bv32, bits: seq<bool>): (r: seq<bool>)
    ensures |r| == |bits| + 32
  {
    XorFront(bits + Repeat(false, 32), TopBits(c, 32))
  }

  /** One iteration of the loop is one step of the division. */
  lemma ViewStep(c: bv32, bits: seq<bool>)
    requires bits != []
    ensures var v := View(c, bits);
            && v[0] == (Top(c) != bits[0])
            && View(Shift(c, bits[0]), bits[1..]) == if v[0] then XorFront(v[1..], Generator()) else v[1..]
  {
    hide Top, Doubled, Mixed, TopBits, Generator, Xor;
    var v, d := View(c, bits), Doubled(c);
    TopBitsStep(c, 31);
    DoubledBits(c);
    var padded := bits + Repeat(false, 32);
    assert padded[1..] == bits[1..] + Repeat(false, 32);
    assert View(d, bits[1..]) == v[1..];
    if v[0] {
      MixedIsDoubledXor(c);
      PolyIsGenerator();
      MixedView(d, bits[1..]);
    }
  }

  lemma MixedView(d: bv32, bits: seq<bool>)
    ensures View(Xor(d, POLY), bits) == XorFront(View(d, bits), TopBits(POLY, 32))
  {
    hide TopBits, Xor;
    forall k | 0 <= k < 32
      ensures TopBits(Xor(d, POLY), 32)[k] == (TopBits(d, 32)[k] != TopBits(POLY, 32)[k])
    {
      XorBits(d, POLY, 32, k);
    }
  }

  lemma {:induction false} RegisterDivides(c: bv32, bits: seq<bool>)
    ensures TopBits(ShiftAll(c, bits), 32) == Remainder(View(c, bits))
    decreases |bits|
  {
    hide TopBits, Shift, Generator, View, XorFront;
    if bits == [] {
      NothingToCome(c);
    } else {
      ViewStep(c, bits);
      RegisterDivides(Shift(c, bits[0]), bits[1..]);
    }
  }

  lemma NothingToCome(c: bv32)
    ensures View(c, []) == TopBits(c, 32)
  {
    hide TopBits;
  }

  /** The four checksum bytes of a section are the remainder of the standard's division, for all data. */
  lemma ChecksumIsRemainder(data: seq<byte>)
    ensures BitsOf(CrcBytes(Checksum(data))) == Remainder(Dividend(BitsOf(data)))
  {
    hide TopBits, BitsOf, CrcBytes, ShiftAll, Remainder, XorFront;
    CrcBytesBits(Checksum(data));
    RegisterDivides(START, BitsOf(data));
    StartBits();
  }
}
