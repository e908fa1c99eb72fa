/**
 * The bit reader of file/libh26x/spspps.cpp: single bits, fields gathered from up to five
 * bytes, and the Exp-Golomb codes of section 9.1 of ITU-T H.264.
 */
module Golomb {
  import opened Bytes
  import opened BitStrings

  const MAX_LEN := 32

  // ---------------------------------------------------------------- numbers and bit strings

  lemma {:induction false} FromBitsConcat(a: seq<bool>, b: seq<bool>)
    ensures FromBits(a + b) == FromBits(a) * Pow2(|b|) + FromBits(b)
  {
    if b == [] {
      assert a + b == a;
    } else {
      var n := |b| - 1;
      FromBitsConcat(a, b[..n]);
      LastBit(a + b);
      LastBit(b);
      assert (a + b)[..|a| + n] == a + b[..n];
      hide FromBits;
      Assoc(FromBits(a), Pow2(n));
    }
  }

  lemma LastBit(bits: seq<bool>)
    requires bits != []
    ensures FromBits(bits) == 2 * FromBits(bits[..|bits| - 1]) + if bits[|bits| - 1] then 1 else 0
  {
  }

  lemma Assoc(x: nat, p: nat)
    ensures 2 * (x * p) == x * (2 * p)
  {
  }

  /** Shifting right drops low bits. */
  lemma {:induction false} FromBitsShr(bits: seq<bool>, s: nat)
    requires s <= |bits|
    ensures Shr(FromBits(bits), s) == FromBits(bits[..|bits| - s])
    decreases s
  {
    if s == 0 {
      assert bits[..|bits|] == bits;
    } else {
      hide FromBits;
      var front := bits[..|bits| - 1];
      LastBit(bits);
      FromBitsShr(front, s - 1);
      assert front[..|front| - (s - 1)] == bits[..|bits| - s];
    }
  }

  /** Masking keeps low bits. */
  lemma FromBitsMod(bits: seq<bool>, n: nat)
    requires n <= |bits|
    ensures FromBits(bits) % Pow2(n) == FromBits(bits[|bits| - n..])
  {
    hide FromBits, ToBits, Shr;
    var v := FromBits(bits);
    ToFromBits(bits);
    ToBitsSplit(v, |bits| - n, n);
    assert ToBits(v, n) == bits[|bits| - n..];
    FromToBits(v, n);
  }

  /** The value of a byte string read as one big-endian number. */
  lemma {:induction false} BytesValue(s: seq<byte>, b: byte)
    ensures FromBits(BitsOf(s + [b])) == FromBits(BitsOf(s)) * 256 + b
  {
    hide FromBits, ToBits;
    BitsOfConcat(s, [b]);
    assert BitsOf([b]) == ToBits(b, 8) + BitsOf([b][1..]);
    assert BitsOf([b]) == ToBits(b, 8);
    FromBitsConcat(BitsOf(s), ToBits(b, 8));
    FromToBits(b, 8);
    Powers();
  }

  lemma LoadBe32IsBits(s: seq<byte>)
    requires |s| == 4
    ensures LoadBe32(s) == FromBits(BitsOf(s))
  {
    hide FromBits, BitsOf;
    var s0, s1, s2, s3 := [], [s[0]], [s[0], s[1]], [s[0], s[1], s[2]];
    BytesValue(s0, s[0]);
    BytesValue(s1, s[1]);
    BytesValue(s2, s[2]);
    BytesValue(s3, s[3]);
    assert s0 + [s[0]] == s1 && s1 + [s[1]] == s2 && s2 + [s[2]] == s3 && s3 + [s[3]] == s;
    NoBits();
  }

  lemma NoBits()
    ensures FromBits(BitsOf([])) == 0
  {
  }

  // ---------------------------------------------------------------- get_bits

  function Zeros(n: nat): (s: seq<byte>)
    ensures |s| == n
  {
    seq(n, _ => 0)
  }

  /** The bytes that hold bits pos .. pos + n. */
  function Window(buf: seq<byte>, pos: nat, n: nat): (w: seq<byte>)
    requires pos + n <= 8 * |buf| && n <= MAX_LEN
    ensures |w| == (pos % 8 + n + 7) / 8 <= 5
  {
    var first := pos / 8;
    buf[first..first + (pos % 8 + n + 7) / 8]
  }

  /** What get_bits computes: the window right-aligned in five bytes, of which the first is ignored. */
  function Gathered(buf: seq<byte>, pos: nat, n: nat): nat
    requires pos + n <= 8 * |buf| && n <= MAX_LEN
  {
    var w := Window(buf, pos, n);
    var temp := Zeros(5 - |w|) + w;
    Shr(LoadBe32(temp[1..5]), (8 - (pos % 8 + n)) % 8) % Pow2(n)
  }

  /** The n bits at `pos`, read one by one. */
  function Wanted(buf: seq<byte>, pos: nat, n: nat): nat
    requires pos + n <= 8 * |buf|
  {
    FromBits(BitsOf(buf)[pos..pos + n])
  }

  lemma {:induction false} BitsOfSlice(buf: seq<byte>, i: nat, j: nat)
    requires i <= j <= |buf|
    ensures BitsOf(buf[i..j]) == BitsOf(buf)[8 * i..8 * j]
  {
    hide BitsOf;
    assert buf == buf[..i] + (buf[i..j] + buf[j..]);
    BitsOfConcat(buf[..i], buf[i..j] + buf[j..]);
    BitsOfConcat(buf[i..j], buf[j..]);
  }

  lemma {:induction false} LeadingZeros(n: nat, s: seq<byte>)
    ensures FromBits(BitsOf(Zeros(n) + s)) == FromBits(BitsOf(s))
    decreases |s|
  {
    hide FromBits, BitsOf;
    if s == [] {
      assert Zeros(n) + [] == Zeros(n);
      AllZero(n);
      NoBits();
    } else {
      var m := |s| - 1;
      LeadingZeros(n, s[..m]);
      BytesValue(Zeros(n) + s[..m], s[m]);
      BytesValue(s[..m], s[m]);
      assert s[..m] + [s[m]] == s;
      assert Zeros(n) + s[..m] + [s[m]] == Zeros(n) + s;
    }
  }

  lemma {:induction false} AllZero(n: nat)
    ensures FromBits(BitsOf(Zeros(n))) == 0
  {
    hide FromBits, BitsOf;
    if n == 0 {
      assert Zeros(0) == [];
      NoBits();
    } else {
      AllZero(n - 1);
      BytesValue(Zeros(n - 1), 0);
      assert Zeros(n - 1) + [0] == Zeros(n);
    }
  }

  /** Where the wanted bits are in the gathered bytes. */
  lemma WindowField(buf: seq<byte>, pos: nat, n: nat)
    requires pos + n <= 8 * |buf| && n <= MAX_LEN
    ensures var w, cur := Window(buf, pos, n), pos % 8;
            && cur + n <= 8 * |w| && 8 * |w| - (8 - (cur + n)) % 8 == cur + n
            && BitsOf(w)[cur..cur + n] == BitsOf(buf)[pos..pos + n]
  {
    hide BitsOf;
    var w, cur, first := Window(buf, pos, n), pos % 8, pos / 8;
    BitsOfSlice(buf, first, first + |w|);
    SliceOfSlice(BitsOf(buf), 8 * first, 8 * (first + |w|), cur, n);
  }

  lemma FrontOfBack(bits: seq<bool>, lo: nat, mid: nat)
    requires lo <= mid <= |bits|
    ensures bits[lo..][..mid - lo] == bits[lo..mid] == bits[..mid][lo..]
  {
  }

  /** Up to four bytes are read whole. */
  lemma NarrowWindow(w: seq<byte>, cur: nat, n: nat, s: nat)
    requires |w| <= 4 && 8 * |w| - s == cur + n
    ensures Shr(LoadBe32((Zeros(5 - |w|) + w)[1..5]), s) % Pow2(n) == FromBits(BitsOf(w)[cur..cur + n])
  {
    hide FromBits, BitsOf, Shr, Pow2, LoadBe32;
    var bits, temp := BitsOf(w), Zeros(5 - |w|) + w;
    LoadBe32IsBits(temp[1..5]);
    assert temp[1..5] == Zeros(4 - |w|) + w;
    LeadingZeros(4 - |w|, w);
    FromBitsShr(bits, s);
    FromBitsMod(bits[..cur + n], n);
    FrontOfBack(bits, cur, cur + n);
  }

  /** Of five bytes the first is lost. */
  lemma WideWindow(w: seq<byte>, cur: nat, n: nat, s: nat)
    requires |w| == 5 && 40 - s == cur + n && cur < 8 && n <= 32 && s < 8
    ensures 8 <= cur + n
    ensures Shr(LoadBe32((Zeros(0) + w)[1..5]), s) % Pow2(n) == FromBits(BitsOf(w)[cur..cur + n]) % Pow2(cur + n - 8)
  {
    hide FromBits, BitsOf, Shr, Pow2, LoadBe32;
    var bits, m := BitsOf(w), cur + n - 8;
    assert (Zeros(0) + w)[1..5] == w[1..5];
    LoadBe32IsBits(w[1..5]);
    BitsOfSlice(w, 1, 5);
    var tail, field := bits[8..40], bits[cur..cur + n];
    FromBitsShr(tail, s);
    KeptBits(bits, cur, n);
    FromBitsMod(field, m);
    FromBitsBound(bits[8..cur + n]);
    Pow2Monotone(m, n);
    SmallMod(FromBits(bits[8..cur + n]), Pow2(n));
  }

  lemma KeptBits(bits: seq<bool>, cur: nat, n: nat)
    requires |bits| == 40 && cur < 8 && 32 <= cur + n <= 40
    ensures bits[8..40][..cur + n - 8] == bits[8..cur + n]
    ensures bits[cur..cur + n][8 - cur..] == bits[8..cur + n]
  {
  }

  /**
   * The gathered value is exact up to 32 bits from the start of the first byte; beyond that the
   * bits taken from the first byte are lost.
   */
  lemma GatheredValue(buf: seq<byte>, pos: nat, n: nat)
    requires pos + n <= 8 * |buf| && n <= MAX_LEN
    ensures var cur := pos % 8;
            Gathered(buf, pos, n) ==
              if cur + n <= 32 then Wanted(buf, pos, n) else Wanted(buf, pos, n) % Pow2(cur + n - 8)
  {
    hide FromBits, BitsOf, Shr, Pow2, LoadBe32, Window, Zeros;
    var w, cur := Window(buf, pos, n), pos % 8;
    var s := (8 - (cur + n)) % 8;
    WindowField(buf, pos, n);
    if |w| <= 4 {
      NarrowWindow(w, cur, n, s);
    } else {
      WideWindow(w, cur, n, s);
    }
  }

  lemma SmallMod(x: nat, p: nat)
    requires x < p
    ensures x % p == x
  {
  }

  /** The reader returns the wanted bits exactly if none of those it loses is set. */
  lemma GatheredExactIff(buf: seq<byte>, pos: nat, n: nat)
    requires pos + n <= 8 * |buf| && n <= MAX_LEN
    ensures Gathered(buf, pos, n) == Wanted(buf, pos, n) <==>
            pos % 8 + n <= 32 || Wanted(buf, pos, n) < Pow2(pos % 8 + n - 8)
  {
    hide Gathered, Wanted;
    GatheredValue(buf, pos, n);
    if pos % 8 + n > 32 && Wanted(buf, pos, n) < Pow2(pos % 8 + n - 8) {
      SmallMod(Wanted(buf, pos, n), Pow2(pos % 8 + n - 8));
    }
  }

  // ---------------------------------------------------------------- Exp-Golomb codes

  /** An unsigned 32-bit number returned as a signed one. */
  function AsInt32(u: nat): int
    requires u < TWO32
  {
    if u < 0x8000_0000 then u else u - TWO32
  }

  /** A syntax element: ue(v) or se(v). */
  datatype Code = Ue(v: nat) | Se(i: int) {
    /** Table 9-3: 0, 1, -1, 2, -2, ... */
    function CodeNum(): nat {
      match this
      case Ue(v) => v
      case Se(i) => if i > 0 then 2 * i - 1 else -2 * i
    }

    /** At most 25 leading zeros. */
    predicate Short() { CodeNum() + 1 < Pow2(26) }

    /** At most 30 leading zeros, so that the reader's signed integers hold it. */
    predicate Fits() { CodeNum() + 1 < Pow2(31) }
  }

  /** Table 9-3 the other way: code number k stands for ceil(k / 2), with a minus if k is even. */
  lemma SignedCodes(k: nat, i: int)
    ensures Se(i).CodeNum() == k <==> i == if k % 2 == 1 then (k + 1) / 2 else -(k / 2)
  {
  }

  function Falses(n: nat): (s: seq<bool>)
    ensures |s| == n
  {
    seq(n, _ => false)
  }

  /** Section 9.1: as many zeros as there are bits after the leading one of codeNum + 1. */
  function CodeBits(num: nat): seq<bool>
    requires num + 1 < Pow2(32)
  {
    var z := LeadingZeroBits(num);
    Falses(z) + ToBits(num + 1, z + 1)
  }

  function LeadingZeroBits(num: nat): (z: nat)
    requires num + 1 < Pow2(32)
    ensures z < 32 && Pow2(z) <= num + 1 < 2 * Pow2(z)
  {
    Log2(num + 1, 32)
  }

  lemma FewerZeros(num: nat, k: nat)
    requires num + 1 < Pow2(k) && k <= 32
    ensures num + 1 < Pow2(32) && LeadingZeroBits(num) < k
  {
    hide LeadingZeroBits, Pow2;
    Pow2Monotone(k, 32);
    if LeadingZeroBits(num) >= k {
      Pow2Monotone(k, LeadingZeroBits(num));
    }
  }

  /** Whether the bits after the first one of a code at bit position `pos` are gathered without loss. */
  predicate Gatherable(num: nat, pos: nat)
    requires num + 1 < Pow2(32)
  {
    var z := LeadingZeroBits(num);
    var cur := (pos + z + 1) % 8;
    cur + z <= 32 || num + 1 - Pow2(z) < Pow2(cur + z - 8)
  }

  function AllCodeBits(codes: seq<Code>): seq<bool>
    requires forall c <- codes :: c.Fits()
  {
    if codes == [] then []
    else
      assert codes[0].Fits();
      FewerZeros(codes[0].CodeNum(), 31);
      CodeBits(codes[0].CodeNum()) + AllCodeBits(codes[1..])
  }

  /** Whether every code of a list at bit position `pos` is gathered without loss. */
  predicate AllGatherable(codes: seq<Code>, pos: nat)
    requires forall c <- codes :: c.Fits()
  {
    if codes == [] then true
    else
      assert codes[0].Fits();
      var num := codes[0].CodeNum();
      FewerZeros(num, 31);
      Gatherable(num, pos) && AllGatherable(codes[1..], pos + |CodeBits(num)|)
  }

  /** Codes with at most 25 leading zeros never lose a bit, wherever they stand. */
  lemma {:induction false} ShortGatherable(codes: seq<Code>, pos: nat)
    requires forall c <- codes :: c.Fits() && c.Short()
    ensures AllGatherable(codes, pos)
  {
    hide Pow2, CodeBits, LeadingZeroBits, Code.CodeNum;
    if codes != [] {
      assert codes[0] in codes;
      var num := codes[0].CodeNum();
      FewerZeros(num, 31);
      FewerZeros(num, 26);
      ShortGatherable(codes[1..], pos + |CodeBits(num)|);
    }
  }

  function Ones(n: nat): (s: seq<bool>)
    ensures |s| == n
  {
    seq(n, _ => true)
  }

  lemma {:induction false} OnesValue(n: nat)
    ensures FromBits(Ones(n)) == Pow2(n) - 1
  {
    if n > 0 {
      OnesValue(n - 1);
      assert Ones(n)[..n - 1] == Ones(n - 1);
    }
  }

  lemma ByteOfOnes()
    ensures ToBits(255, 8) == Ones(8)
  {
    hide ToBits, FromBits, Pow2;
    Powers();
    OnesValue(8);
    ToFromBits(Ones(8));
  }

  lemma {:induction false} BytesOfOnes(n: nat)
    ensures BitsOf(seq(n, _ => 255)) == Ones(8 * n)
  {
    hide ToBits;
    if n > 0 {
      BytesOfOnes(n - 1);
      ByteOfOnes();
      assert seq(n, _ => 255)[1..] == seq(n - 1, _ => 255);
      assert Ones(8) + Ones(8 * (n - 1)) == Ones(8 * n);
    }
  }

  /** 32 set bits from bit 4 of a byte on: the four in the first byte are lost. */
  lemma MisreadBits()
    ensures var buf: seq<byte> := seq(5, _ => 255);
            Wanted(buf, 4, 32) == 0xffff_ffff && Gathered(buf, 4, 32) == 0xfff_ffff
  {
    hide Pow2, BitsOf, FromBits, Gathered;
    var buf: seq<byte> := seq(5, _ => 255);
    BytesOfOnes(5);
    assert Ones(40)[4..36] == Ones(32);
    OnesValue(32);
    Powers();
    Pow2Next(27);
    GatheredValue(buf, 4, 32);
  }

  /** A code that is read wrong: 26 zeros from bit 4 of a byte on, and a lost bit that is set. */
  lemma UngatherableCode()
    ensures LOST_NUM + 1 < Pow2(32) && !Gatherable(LOST_NUM, 4)
  {
    hide Pow2, LeadingZeroBits;
    Powers();
    LostZeros();
  }

  lemma LostZeros()
    ensures LOST_NUM + 1 < Pow2(32) && LeadingZeroBits(LOST_NUM) == 26
  {
    hide Pow2, LeadingZeroBits;
    Powers();
    FewerZeros(LOST_NUM, 27);
    var z := LeadingZeroBits(LOST_NUM);
    if z < 26 {
      Pow2Monotone(z, 25);
    }
  }

  const LOST_NUM := 0x400_0000 + 0x200_0000 - 1
  const LOST_CODE: seq<byte> := [0, 0, 0] + ([3] + [0, 0, 0, 0])

  lemma {:induction false} ZeroField(n: nat)
    ensures ToBits(0, n) == Falses(n)
  {
    if n > 0 {
      ZeroField(n - 1);
    }
  }

  lemma {:induction false} ZeroBytes(n: nat)
    ensures BitsOf(seq(n, _ => 0)) == Falses(8 * n)
  {
    hide ToBits;
    if n > 0 {
      ZeroBytes(n - 1);
      ZeroField(8);
      assert seq(n, _ => 0)[1..] == seq(n - 1, _ => 0);
      assert Falses(8) + Falses(8 * (n - 1)) == Falses(8 * n);
    }
  }

  lemma ByteOfThree()
    ensures BitsOf([3]) == Falses(6) + [true, true]
  {
    hide ToBits;
    assert BitsOf([3]) == ToBits(3, 8) by {
      assert [3][1..] == [] && BitsOf([3]) == ToBits(3, 8) + BitsOf([]);
    }
    ToBitsSplit(3, 6, 2);
    ZeroField(6);
    TwoOnes();
  }

  lemma TwoOnes()
    ensures ToBits(3, 2) == [true, true] && Shr(3, 2) == 0
  {
    assert ToBits(3, 2) == ToBits(1, 1) + [true];
    OneBit();
  }

  lemma LostBits()
    ensures BitsOf(LOST_CODE) == Falses(30) + [true, true] + Falses(32)
  {
    hide BitsOf, ToBits;
    BitsOfConcat([0, 0, 0], [3] + [0, 0, 0, 0]);
    BitsOfConcat([3], [0, 0, 0, 0]);
    assert [0, 0, 0] == seq(3, _ => 0) && [0, 0, 0, 0] == seq(4, _ => 0);
    ZeroBytes(3);
    ZeroBytes(4);
    ByteOfThree();
  }

  /** The low bits of the number: a one, which is the bit that gets lost, and zeros. */
  lemma LostLow()
    ensures ToBits(LOST_NUM + 1, 26) == [true] + Falses(25)
  {
    hide ToBits, Pow2, Shr;
    Powers();
    Quotient(LOST_NUM + 1, 0x400_0000, 1, 0x200_0000);
    ToBitsMod(LOST_NUM + 1, 26);
    ToBitsSplit(0x200_0000, 1, 25);
    ShrIsDiv(0x200_0000, 25);
    OneBit();
    ToBitsMod(0x200_0000, 25);
    ZeroField(25);
  }

  /** Eight bytes with a code at bit 4 that is read wrong: of its low bits, which are not zero, zero is read. */
  lemma MisreadCode()
    ensures LOST_NUM + 1 < Pow2(32) && Follows(BitsOf(LOST_CODE), 4, CodeBits(LOST_NUM))
    ensures Wanted(LOST_CODE, 31, 26) == 0x200_0000 && Gathered(LOST_CODE, 31, 26) == 0
  {
    hide BitsOf, ToBits, FromBits, Pow2, CodeBits, LeadingZeroBits, Gathered;
    UngatherableCode();
    Powers();
    CodeShape(LOST_NUM);
    LostZeros();
    LostLow();
    LostBits();
    var bits := BitsOf(LOST_CODE);
    assert CodeBits(LOST_NUM) == Falses(26) + [true] + ([true] + Falses(25));
    assert bits[4..57] == Falses(26) + [true] + ([true] + Falses(25));
    assert bits[31..57] == [true] + Falses(25);
    GatheredValue(LOST_CODE, 31, 26);
  }

  /** A code is z zeros, a one, and the low z bits of codeNum + 1. */
  lemma CodeShape(num: nat)
    requires num + 1 < Pow2(32)
    ensures var z := LeadingZeroBits(num);
            && |CodeBits(num)| == 2 * z + 1
            && CodeBits(num) == Falses(z) + [true] + ToBits(num + 1, z)
            && FromBits(ToBits(num + 1, z)) == num + 1 - Pow2(z)
  {
    hide ToBits, FromBits, Pow2, Shr, LeadingZeroBits;
    var z := LeadingZeroBits(num);
    var p := Pow2(z);
    assert z + 1 == 1 + z;
    ToBitsSplit(num + 1, 1, z);
    ShrIsDiv(num + 1, z);
    Quotient(num + 1, p, 1, num + 1 - p);
    OneBit();
    FromToBits(num + 1, z);
  }

  lemma OneBit()
    ensures ToBits(1, 1) == [true]
  {
  }

  lemma BitAt(buf: seq<byte>, pos: nat)
    requires pos < 8 * |buf|
    ensures BitsOf(buf)[pos] == (Shr(buf[pos / 8], 7 - pos % 8) % 2 == 1)
  {
    hide BitsOf, ToBits, Shr;
    BitsOfAt(buf, pos / 8, pos % 8);
    ToBitsAt(buf[pos / 8], 8, pos % 8);
  }

  /** get_bit_context: the two cursors move together. */
  class BitReader {
    const buf: seq<byte>
    const totalBit: nat
    var bitPos: nat
    var curBitPos: nat

    ghost predicate Valid()
      reads this
    {
      totalBit == 8 * |buf| && bitPos <= totalBit && curBitPos == bitPos % 8
    }

    constructor (buf: seq<byte>)
      ensures this.buf == buf && Valid() && bitPos == 0
    {
      this.buf, totalBit, bitPos, curBitPos := buf, 8 * |buf|, 0, 0;
    }

    /** get_1bit */
    method GetBit() returns (b: bool)
      requires Valid() && bitPos < totalBit
      modifies this
      ensures Valid() && bitPos == old(bitPos) + 1 && b == BitsOf(buf)[old(bitPos)]
    {
      hide BitsOf, Shr;
      BitAt(buf, bitPos);
      b := Shr(buf[bitPos / 8], 7 - curBitPos) % 2 == 1;
      bitPos := bitPos + 1;
      curBitPos := bitPos % 8;
    }

    /** get_bits: at most 32 bits, and no more than there are. */
    method GetBits(count: nat) returns (value: nat)
      requires Valid()
      modifies this
      ensures var n := Min(Min(count, MAX_LEN), totalBit - old(bitPos));
              && Valid() && bitPos == old(bitPos) + n
              && value == Gathered(buf, old(bitPos), n)
    {
      hide Shr, LoadBe32, Pow2;
      var n := count;
      if n > MAX_LEN {
        n := MAX_LEN;
      }
      if bitPos + n > totalBit {
        n := totalBit - bitPos;
      }
      var first := bitPos / 8;
      var nbyte := (curBitPos + n + 7) / 8;
      var shift := (8 - (curBitPos + n)) % 8;
      var temp := Zeros(5 - nbyte) + buf[first..first + nbyte];
      value := Shr(LoadBe32(temp[1..5]), shift) % Pow2(n);
      bitPos := bitPos + n;
      curBitPos := bitPos % 8;
    }

    /**
     * parse_codenum: count zeros up to the first one, then read as many bits. The cursor ends
     * behind the code in any case; the number is right exactly if no bit of it is lost and it fits
     * the signed integer it is returned as.
     */
    method ParseCodenum(ghost num: nat) returns (r: int)
      requires Valid() && num + 1 < Pow2(32)
      requires Follows(BitsOf(buf), bitPos, CodeBits(num))
      modifies this
      ensures Valid() && bitPos == old(bitPos) + |CodeBits(num)|
      ensures r == num <==> Gatherable(num, old(bitPos)) && num < 0x8000_0000
      ensures num + 1 < Pow2(31) ==> r >= 0
    {
      hide BitsOf, ToBits, FromBits, CodeBits, Pow2, Gathered, LeadingZeroBits, Wanted;
      CodeShape(num);
      ghost var bits, start, z := BitsOf(buf), bitPos, LeadingZeroBits(num);
      CodeAt(bits, start, z, ToBits(num + 1, z));
      var zeros := CountZeros(z);
      WantedIs(buf, bitPos, z, ToBits(num + 1, z));
      GatheredExactIff(buf, bitPos, z);
      GatheredBelow(buf, bitPos, z);
      CodeRange(num);
      var low := GetBits(zeros);
      r := AsInt32(Pow2(zeros) - 1 + low);
    }

    /** The loop over the leading zeros. */
    method CountZeros(ghost z: nat) returns (zeros: nat)
      requires Valid() && bitPos + z < totalBit && BitsOf(buf)[bitPos + z]
      requires forall i :: bitPos <= i < bitPos + z ==> !BitsOf(buf)[i]
      modifies this
      ensures Valid() && zeros == z && bitPos == old(bitPos) + z + 1
    {
      hide BitsOf;
      zeros := 0;
      ghost var start := bitPos;
      var b := GetBit();
      while !b
        invariant 0 <= zeros <= z && Valid() && bitPos == start + zeros + 1
        invariant b == BitsOf(buf)[start + zeros]
        decreases z - zeros
      {
        zeros := zeros + 1;
        b := GetBit();
      }
    }

    method ParseUe(ghost c: Code) returns (r: int)
      requires Valid() && c.Ue? && c.v + 1 < Pow2(32) && Follows(BitsOf(buf), bitPos, CodeBits(c.v))
      modifies this
      ensures Valid() && bitPos == old(bitPos) + |CodeBits(c.v)|
      ensures r == c.v <==> Gatherable(c.v, old(bitPos)) && c.v < 0x8000_0000
      ensures c.Fits() ==> r >= 0
    {
      hide BitsOf, CodeBits, Pow2, Gatherable;
      r := ParseCodenum(c.v);
    }

    /** parse_se: half of codeNum + 1, negative for even numbers. */
    method ParseSe(ghost c: Code) returns (r: int)
      requires Valid() && c.Se? && c.Fits()
      requires (FewerZeros(c.CodeNum(), 31); Follows(BitsOf(buf), bitPos, CodeBits(c.CodeNum())))
      modifies this
      ensures (FewerZeros(c.CodeNum(), 31); Valid() && bitPos == old(bitPos) + |CodeBits(c.CodeNum())|)
      ensures (FewerZeros(c.CodeNum(), 31); (r == c.i <==> Gatherable(c.CodeNum(), old(bitPos))))
    {
      hide BitsOf, CodeBits, Pow2, Gatherable;
      FewerZeros(c.CodeNum(), 31);
      Powers();
      var num := ParseCodenum(c.CodeNum());
      r := (num + 1) / 2;
      r := if num % 2 == 1 then r else -r;
    }

    /**
     * Any list of codes: the cursor ends right behind it, and it is read back exactly if and only
     * if every code is gathered without loss; codes with at most 25 leading zeros always are.
     */
    method ParseAll(codes: seq<Code>) returns (values: seq<Code>)
      requires Valid() && (forall c <- codes :: c.Fits())
      requires Follows(BitsOf(buf), bitPos, AllCodeBits(codes))
      modifies this
      ensures Valid() && bitPos == old(bitPos) + |AllCodeBits(codes)|
      ensures values == codes <==> AllGatherable(codes, old(bitPos))
      ensures (forall c <- codes :: c.Short()) ==> values == codes
    {
      hide BitsOf, CodeBits, AllCodeBits, AllGatherable, Pow2, Follows, Code.CodeNum, Gatherable, LeadingZeroBits;
      values := [];
      var i := 0;
      assert codes[0..] == codes;
      if forall c <- codes :: c.Short() {
        ShortGatherable(codes, bitPos);
      }
      while i < |codes|
        invariant 0 <= i <= |codes| && Valid() && |values| == i
        invariant bitPos + |AllCodeBits(codes[i..])| == old(bitPos) + |AllCodeBits(codes)|
        invariant Follows(BitsOf(buf), bitPos, AllCodeBits(codes[i..]))
        invariant AllGatherable(codes, old(bitPos)) <==> values == codes[..i] && AllGatherable(codes[i..], bitPos)
      {
        ghost var c := codes[i];
        assert c in codes && codes[i..][0] == c && codes[i..][1..] == codes[i + 1..];
        FewerZeros(c.CodeNum(), 31);
        CodesStep(codes[i..], bitPos);
        FollowsSplit(BitsOf(buf), bitPos, CodeBits(c.CodeNum()), AllCodeBits(codes[i + 1..]));
        var v := ParseNext(codes[i]);
        OneMoreEqual(codes, values, v);
        values := values + [v];
        i := i + 1;
      }
      assert codes[..i] == codes && codes[i..] == [];
      NoCodes(bitPos);
    }

    /** The next code, of the kind that is expected. */
    method ParseNext(kind: Code) returns (v: Code)
      requires Valid() && kind.Fits()
      requires (FewerZeros(kind.CodeNum(), 31); Follows(BitsOf(buf), bitPos, CodeBits(kind.CodeNum())))
      modifies this
      ensures (FewerZeros(kind.CodeNum(), 31); Valid() && bitPos == old(bitPos) + |CodeBits(kind.CodeNum())|)
      ensures (FewerZeros(kind.CodeNum(), 31); (v == kind <==> Gatherable(kind.CodeNum(), old(bitPos))))
    {
      hide BitsOf, CodeBits, Pow2, Gatherable, LeadingZeroBits;
      FewerZeros(kind.CodeNum(), 31);
      Powers();
      if kind.Ue? {
        var r := ParseUe(kind);
        v := Ue(r);
      } else {
        var r := ParseSe(kind);
        v := Se(r);
      }
    }
  }

  lemma CodesStep(codes: seq<Code>, pos: nat)
    requires codes != [] && forall c <- codes :: c.Fits()
    ensures codes[0].CodeNum() + 1 < Pow2(32)
    ensures AllCodeBits(codes) == CodeBits(codes[0].CodeNum()) + AllCodeBits(codes[1..])
    ensures AllGatherable(codes, pos) <==>
            Gatherable(codes[0].CodeNum(), pos) && AllGatherable(codes[1..], pos + |CodeBits(codes[0].CodeNum())|)
  {
    hide CodeBits, Pow2, Gatherable, Code.CodeNum;
    assert codes[0] in codes;
    FewerZeros(codes[0].CodeNum(), 31);
  }

  lemma NoCodes(pos: nat)
    ensures AllCodeBits([]) == [] && AllGatherable([], pos)
  {
  }

  lemma OneMoreEqual<T>(all: seq<T>, some: seq<T>, x: T)
    requires |some| < |all|
    ensures some + [x] == all[..|some| + 1] <==> some == all[..|some|] && x == all[|some|]
  {
    var n := |some|;
    assert all[..n + 1] == all[..n] + [all[n]];
    if some + [x] == all[..n + 1] {
      assert (some + [x])[..n] == some && all[..n + 1][..n] == all[..n] && (some + [x])[n] == x;
    }
  }

  lemma WantedIs(buf: seq<byte>, pos: nat, n: nat, low: seq<bool>)
    requires pos + n <= 8 * |buf| && BitsOf(buf)[pos..pos + n] == low
    ensures Wanted(buf, pos, n) == FromBits(low)
  {
  }

  lemma GatheredBelow(buf: seq<byte>, pos: nat, n: nat)
    requires pos + n <= 8 * |buf| && n <= MAX_LEN
    ensures Gathered(buf, pos, n) < Pow2(n)
  {
  }

  /** How large a number with as many leading zeros as `num` can be. */
  lemma CodeRange(num: nat)
    requires num + 1 < Pow2(32)
    ensures var p := Pow2(LeadingZeroBits(num)); 2 * p <= TWO32 && (num + 1 < Pow2(31) ==> 2 * p <= 0x8000_0000)
  {
    hide Pow2, LeadingZeroBits;
    Powers();
    var z := LeadingZeroBits(num);
    Pow2Monotone(z, 31);
    if num + 1 < Pow2(31) {
      FewerZeros(num, 31);
      Pow2Monotone(z + 1, 31);
      Pow2Next(z);
    }
  }

  lemma Pow2Next(z: nat)
    ensures Pow2(z + 1) == 2 * Pow2(z)
  {
  }

  /** The bits `s` stand at `pos`. */
  predicate Follows(bits: seq<bool>, pos: nat, s: seq<bool>) {
    pos + |s| <= |bits| && bits[pos..pos + |s|] == s
  }

  lemma FollowsSplit(bits: seq<bool>, pos: nat, a: seq<bool>, b: seq<bool>)
    requires Follows(bits, pos, a + b)
    ensures Follows(bits, pos, a) && Follows(bits, pos + |a|, b)
  {
    assert a == (a + b)[..|a|] && b == (a + b)[|a|..];
    assert bits[pos..pos + |a|] == bits[pos..pos + |a + b|][..|a|];
    assert bits[pos + |a|..pos + |a| + |b|] == bits[pos..pos + |a + b|][|a|..];
  }

  lemma CodeAt(bits: seq<bool>, pos: nat, z: nat, low: seq<bool>)
    requires |low| == z && Follows(bits, pos, Falses(z) + [true] + low)
    ensures forall i :: pos <= i < pos + z ==> !bits[i]
    ensures bits[pos + z] && bits[pos + z + 1..pos + 2 * z + 1] == low
  {
    var code := Falses(z) + [true] + low;
    assert forall i :: 0 <= i < |code| ==> bits[pos + i] == code[i] by {
      forall i | 0 <= i < |code| ensures bits[pos + i] == code[i] {
        assert bits[pos..pos + |code|][i] == code[i];
      }
    }
    forall i | pos <= i < pos + z ensures !bits[i] {
      assert bits[pos + (i - pos)] == code[i - pos];
    }
    assert code[z] && code[z + 1..] == low;
    assert bits[pos..pos + |code|][z + 1..] == low;
  }
}
