/** The MPEG-2 CRC (ISO/IEC 13818-1 Annex A) as the bit-serial loop of CRC_encode. */
module Crc {
  import opened Bytes
  import opened BitStrings

  const POLY: bv32 := 0x04c11db7
  const START: bv32 := 0xffff_ffff

  /** One iteration of the loop. */
  function Shift(crc: bv32, bit: bool): bv32 { if Top(crc) != bit then Mixed(crc) else Doubled(crc) }

  predicate Top(crc: bv32) { crc >> 31 == 1 }

  function Doubled(crc: bv32): bv32 { crc << 1 }

  function Mixed(crc: bv32): bv32 { (crc << 1) ^ POLY }

  function ShiftAll(crc: bv32, bits: seq<bool>): bv32
    decreases bits
  {
    if bits == [] then crc else ShiftAll(Shift(crc, bits[0]), bits[1..])
  }

  function Checksum(data: seq<byte>): bv32 { ShiftAll(START, BitsOf(data)) }

  lemma {:induction false} ShiftAllConcat(crc: bv32, a: seq<bool>, b: seq<bool>)
    ensures ShiftAll(crc, a + b) == ShiftAll(ShiftAll(crc, a), b)
    decreases a
  {
    if a == [] {
      assert a + b == b;
    } else {
      assert (a + b)[1..] == a[1..] + b;
      ShiftAllConcat(Shift(crc, a[0]), a[1..], b);
    }
  }

  /** CRC_encode: `byteCount` and `bitCount` walk over the data. */
  method Encode(data: seq<byte>) returns (crc: bv32)
    ensures crc == Checksum(data)
  {
    hide Shift, ShiftAll, BitsOf, Shr;
    var byteCount, bitCount := 0, 0;
    crc := START;
    assert data[0..] == data && BitsOf(data)[0..] == BitsOf(data);
    while byteCount < |data|
      invariant 0 <= byteCount <= |data| && 0 <= bitCount < 8 && (byteCount == |data| ==> bitCount == 0)
      invariant ShiftAll(crc, BitsOf(data[byteCount..])[bitCount..]) == Checksum(data)
      decreases |data| - byteCount, 8 - bitCount
    {
      BitAt(data[byteCount..], bitCount);
      NextBit(crc, BitsOf(data[byteCount..]), bitCount);
      NextByte(data, byteCount);
      crc := Shift(crc, Shr(data[byteCount], 7 - bitCount) % 2 == 1);
      bitCount := bitCount + 1;
      if bitCount > 7 {
        bitCount := 0;
        byteCount := byteCount + 1;
      }
    }
    NoBitLeft(crc, data);
  }

  lemma NextBit(crc: bv32, bits: seq<bool>, k: nat)
    requires k < |bits|
    ensures ShiftAll(crc, bits[k..]) == ShiftAll(Shift(crc, bits[k]), bits[k + 1..])
  {
    hide Shift;
    assert bits[k..][1..] == bits[k + 1..];
  }

  lemma NextByte(data: seq<byte>, i: nat)
    requires i < |data|
    ensures BitsOf(data[i..])[8..] == BitsOf(data[i + 1..])[0..]
  {
    hide ToBits;
    assert data[i..][1..] == data[i + 1..];
    assert BitsOf(data[i..]) == ToBits(data[i], 8) + BitsOf(data[i + 1..]);
  }

  lemma NoBitLeft(crc: bv32, data: seq<byte>)
    ensures ShiftAll(crc, BitsOf(data[|data|..])[0..]) == crc
  {
  }

  lemma BitAt(data: seq<byte>, k: nat)
    requires data != [] && k < 8
    ensures BitsOf(data)[k] == (Shr(data[0], 7 - k) % 2 == 1)
  {
    ToBitsAt(data[0], 8, k);
  }

  // ---------------------------------------------------------------- residue

  /** The first `n` bits of a register, most significant first. */
  function TopBits(crc: bv32, n: nat): (r: seq<bool>)
    ensures |r| == n
    decreases n
  {
    if n == 0 then [] else [Top(crc)] + TopBits(Doubled(crc), n - 1)
  }

  function Pack(bits: seq<bool>): byte
    requires |bits| == 8
  {
    FromBitsBound(bits);
    Powers();
    FromBits(bits)
  }

  /** The four bytes of a register, most significant first, as the section writers store it. */
  function CrcBytes(crc: bv32): (r: seq<byte>)
    ensures |r| == 4
  {
    [Pack(TopBits(crc, 8)), Pack(TopBits(crc << 8, 8)), Pack(TopBits(crc << 16, 8)), Pack(TopBits(crc << 24, 8))]
  }

  /** A register that meets its own top bits never takes the polynomial. */
  lemma OwnBits(crc: bv32)
    ensures ShiftAll(crc, TopBits(crc, 8)) == crc << 8
  {
    hide Top, Doubled, Mixed;
    var c1 := Doubled(crc);
    var c2 := Doubled(c1);
    var c3 := Doubled(c2);
    var c4 := Doubled(c3);
    var c5 := Doubled(c4);
    var c6 := Doubled(c5);
    var c7 := Doubled(c6);
    OwnBit(crc, 7);
    OwnBit(c1, 6);
    OwnBit(c2, 5);
    OwnBit(c3, 4);
    OwnBit(c4, 3);
    OwnBit(c5, 2);
    OwnBit(c6, 1);
    OwnBit(c7, 0);
    DoubledEight(crc);
  }

  lemma DoubledEight(c: bv32)
    ensures Doubled(Doubled(Doubled(Doubled(Doubled(Doubled(Doubled(Doubled(c)))))))) == c << 8
  {
  }

  lemma OwnBit(crc: bv32, n: nat)
    ensures ShiftAll(crc, TopBits(crc, n + 1)) == ShiftAll(Doubled(crc), TopBits(Doubled(crc), n))
  {
    hide Top, Doubled, Mixed;
    var bits := TopBits(crc, n + 1);
    assert bits[1..] == TopBits(Doubled(crc), n);
  }

  lemma OwnBytes(crc: bv32)
    ensures ShiftAll(crc, BitsOf(CrcBytes(crc))) == 0
  {
    hide Shift, TopBits, FromBits, ToBits, ShiftAll;
    var b0, b1, b2, b3 := TopBits(crc, 8), TopBits(crc << 8, 8), TopBits(crc << 16, 8), TopBits(crc << 24, 8);
    FourBytes(b0, b1, b2, b3);
    ShiftAllConcat(crc, b0, b1 + (b2 + b3));
    ShiftAllConcat(crc << 8, b1, b2 + b3);
    ShiftAllConcat(crc << 16, b2, b3);
    OwnBits(crc);
    OwnBits(crc << 8);
    OwnBits(crc << 16);
    OwnBits(crc << 24);
    Shifts(crc);
  }

  lemma FourBytes(b0: seq<bool>, b1: seq<bool>, b2: seq<bool>, b3: seq<bool>)
    requires |b0| == |b1| == |b2| == |b3| == 8
    ensures BitsOf([Pack(b0), Pack(b1), Pack(b2), Pack(b3)]) == b0 + (b1 + (b2 + b3))
  {
    hide ToBits, FromBits;
    ToFromBits(b0);
    ToFromBits(b1);
    ToFromBits(b2);
    ToFromBits(b3);
    var r := [Pack(b0), Pack(b1), Pack(b2), Pack(b3)];
    assert r[1..][1..] == r[2..] && r[2..][1..] == r[3..] && r[3..][1..] == [];
    assert BitsOf(r[3..]) == b3 + BitsOf([]);
    assert BitsOf(r[2..]) == b2 + BitsOf(r[3..]);
    assert BitsOf(r[1..]) == b1 + BitsOf(r[2..]);
  }

  lemma Shifts(c: bv32)
    ensures (c << 8) << 8 == c << 16 && (c << 16) << 8 == c << 24 && (c << 24) << 8 == 0
  {
  }

  /** Data followed by its own checksum checks to zero. */
  lemma Residue(data: seq<byte>)
    ensures Checksum(data + CrcBytes(Checksum(data))) == 0
  {
    hide CrcBytes;
    var crc := Checksum(data);
    BitsOfConcat(data, CrcBytes(crc));
    ShiftAllConcat(START, BitsOf(data), BitsOf(CrcBytes(crc)));
    OwnBytes(crc);
  }

  // ---------------------------------------------------------------- error detection

  /** The `j` low bits of a register. */
  function Mask(j: nat): bv32 { if j == 0 then 0 else Grown(Mask(j - 1)) }

  function Grown(m: bv32): bv32 { (m << 1) | 1 }

  predicate DifferBelow(x: bv32, y: bv32, j: nat) { Hits(Xor(x, y), Mask(j)) }

  lemma {:induction false} MaskGrows(j: nat)
    ensures Mask(j) & !Mask(j + 1) == 0
  {
    if j > 0 {
      MaskGrows(j - 1);
      GrowStep(Mask(j - 1));
    }
  }

  lemma GrowStep(m: bv32)
    requires m & !Grown(m) == 0
    ensures Grown(m) & !Grown(Grown(m)) == 0
  {
  }

  lemma {:induction false} MaskTop(j: nat)
    requires j <= 31
    ensures Mask(j) & 0x8000_0000 == 0
    decreases 31 - j
  {
    hide Mask;
    if j == 31 {
      MaskOf3();
      FourGrown(3);
      FourGrown(7);
      FourGrown(11);
      FourGrown(15);
      FourGrown(19);
      FourGrown(23);
      FourGrown(27);
    } else {
      MaskTop(j + 1);
      MaskGrows(j);
      BelowMask(Mask(j), Mask(j + 1));
    }
  }

  lemma MaskOf3()
    ensures Mask(3) == 7
  {
  }

  lemma {:induction false} FourGrown(j: nat)
    ensures Mask(j + 4) == (Mask(j) << 4) | 0xf
  {
    hide Grown;
    assert Mask(j + 4) == Grown(Mask(j + 3)) && Mask(j + 3) == Grown(Mask(j + 2));
    assert Mask(j + 2) == Grown(Mask(j + 1)) && Mask(j + 1) == Grown(Mask(j));
    GrownFour(Mask(j));
  }

  lemma GrownFour(m: bv32)
    ensures Grown(Grown(Grown(Grown(m)))) == (m << 4) | 0xf
  {
  }

  lemma BelowMask(m: bv32, n: bv32)
    requires m & !n == 0 && n & 0x8000_0000 == 0
    ensures m & 0x8000_0000 == 0
  {
  }

  function Xor(x: bv32, y: bv32): bv32 { x ^ y }

  lemma DoubledXor(x: bv32, y: bv32)
    ensures Xor(Doubled(x), Doubled(y)) == Doubled(Xor(x, y))
  {
  }

  lemma MixedIsDoubledXor(x: bv32)
    ensures Mixed(x) == Xor(Doubled(x), POLY)
  {
  }

  lemma XorBoth(x: bv32, y: bv32)
    ensures Xor(Xor(x, POLY), Xor(y, POLY)) == Xor(x, y)
  {
  }

  lemma XorLeft(x: bv32, y: bv32)
    ensures Xor(Xor(x, POLY), y) == Xor(Xor(x, y), POLY)
  {
  }

  lemma XorRight(x: bv32, y: bv32)
    ensures Xor(x, Xor(y, POLY)) == Xor(Xor(x, y), POLY)
  {
  }

  /** The difference of two registers is doubled, with the polynomial if only one of them took it. */
  lemma DifferenceStep(x: bv32, y: bv32, a: bool, b: bool)
    ensures Xor(Shift(x, a), Shift(y, b)) in {Doubled(Xor(x, y)), Mixed(Xor(x, y))}
  {
    hide Top, Doubled, Mixed, Xor;
    DoubledXor(x, y);
    MixedIsDoubledXor(x);
    MixedIsDoubledXor(y);
    MixedIsDoubledXor(Xor(x, y));
    XorBoth(Doubled(x), Doubled(y));
    XorLeft(Doubled(x), Doubled(y));
    XorRight(Doubled(x), Doubled(y));
  }

  predicate Hits(d: bv32, m: bv32) { d & m != 0 }

  lemma MixedHits(x: bv32, m: bv32)
    ensures Hits(Mixed(x), Grown(m))
  {
    assert Mixed(x) & 1 == 1;
  }

  lemma DoubledHits(d: bv32, m: bv32)
    requires m & 0x8000_0000 == 0 && Hits(d, m)
    ensures Hits(Doubled(d), Grown(m))
  {
  }

  lemma SpreadStep(x: bv32, y: bv32, a: bool, b: bool, j: nat)
    requires j <= 31 && DifferBelow(x, y, j)
    ensures DifferBelow(Shift(x, a), Shift(y, b), j + 1)
  {
    hide Shift, Doubled, Mixed, Xor, Hits, Grown;
    MaskTop(j);
    DifferenceStep(x, y, a, b);
    MixedHits(Xor(x, y), Mask(j));
    DoubledHits(Xor(x, y), Mask(j));
  }

  lemma FirstDifference(x: bv32, a: bool, b: bool)
    requires a != b
    ensures DifferBelow(Shift(x, a), Shift(x, b), 1)
  {
    assert Mask(1) == 1;
  }

  lemma ShiftInjective(x: bv32, y: bv32, b: bool)
    requires Shift(x, b) == Shift(y, b)
    ensures x == y
  {
    hide Top, Doubled, Mixed;
    LowBits(x, y);
    LowBits(y, x);
    TopAndRest(x, y);
  }

  lemma LowBits(x: bv32, y: bv32)
    ensures Mixed(x) != Doubled(y)
    ensures Mixed(x) == Mixed(y) ==> Doubled(x) == Doubled(y)
  {
    assert Mixed(x) & 1 == 1 && Doubled(y) & 1 == 0;
  }

  lemma TopAndRest(x: bv32, y: bv32)
    ensures Doubled(x) == Doubled(y) && Top(x) == Top(y) ==> x == y
  {
  }

  lemma DifferMeans(x: bv32, y: bv32, j: nat)
    requires DifferBelow(x, y, j)
    ensures x != y
  {
    hide Mask;
    assert x == y ==> Xor(x, y) == 0;
  }

  /** A difference climbs one bit a step and cannot be cancelled before it reaches the top. */
  lemma {:induction false} Spread(x: bv32, y: bv32, j: nat, u: seq<bool>, w: seq<bool>)
    requires |u| == |w| && j + |u| <= 32 && DifferBelow(x, y, j)
    ensures ShiftAll(x, u) != ShiftAll(y, w)
    decreases u
  {
    hide Shift, DifferBelow;
    if u == [] {
      DifferMeans(x, y, j);
    } else {
      SpreadStep(x, y, u[0], w[0], j);
      Spread(Shift(x, u[0]), Shift(y, w[0]), j + 1, u[1..], w[1..]);
    }
  }

  lemma {:induction false} WindowDiffers(x: bv32, u: seq<bool>, w: seq<bool>)
    requires |u| == |w| <= 32 && u != w
    ensures ShiftAll(x, u) != ShiftAll(x, w)
    decreases u
  {
    hide Shift;
    if u[0] == w[0] {
      assert u == [u[0]] + u[1..] && w == [w[0]] + w[1..];
      WindowDiffers(Shift(x, u[0]), u[1..], w[1..]);
    } else {
      FirstDifference(x, u[0], w[0]);
      Spread(Shift(x, u[0]), Shift(x, w[0]), 1, u[1..], w[1..]);
    }
  }

  lemma {:induction false} SuffixKeepsDifference(x: bv32, y: bv32, bits: seq<bool>)
    requires x != y
    ensures ShiftAll(x, bits) != ShiftAll(y, bits)
    decreases bits
  {
    hide Shift;
    if bits != [] {
      if Shift(x, bits[0]) == Shift(y, bits[0]) {
        ShiftInjective(x, y, bits[0]);
      }
      SuffixKeepsDifference(Shift(x, bits[0]), Shift(y, bits[0]), bits[1..]);
    }
  }

  /** A section that checks to zero no longer does after any error confined to 32 adjacent bits. */
  lemma BurstDetected(good: seq<byte>, bad: seq<byte>, p: seq<bool>, u: seq<bool>, w: seq<bool>, q: seq<bool>)
    requires Checksum(good) == 0
    requires BitsOf(good) == p + u + q && BitsOf(bad) == p + w + q
    requires |u| == |w| <= 32 && u != w
    ensures Checksum(bad) != 0
  {
    ShiftAllConcat(START, p + u, q);
    ShiftAllConcat(START, p + w, q);
    ShiftAllConcat(START, p, u);
    ShiftAllConcat(START, p, w);
    var x := ShiftAll(START, p);
    WindowDiffers(x, u, w);
    SuffixKeepsDifference(ShiftAll(x, u), ShiftAll(x, w), q);
  }
}
