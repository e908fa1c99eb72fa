/** Numbers as strings of bits, most significant bit first. */
module BitStrings {
  import opened Bytes

  function Pow2(n: nat): (p: nat)
    ensures p > 0
  {
    if n == 0 then 1 else 2 * Pow2(n - 1)
  }

  /** The exponent of the highest power of two in a number below 2^k. */
  function Log2(a: nat, k: nat): (e: nat)
    requires 0 < a < Pow2(k)
    ensures e < k && Pow2(e) <= a < 2 * Pow2(e)
  {
    if a < 2 then 0 else 1 + Log2(a / 2, k - 1)
  }

  /** The `n` low bits of a number. */
  function ToBits(v: nat, n: nat): (r: seq<bool>)
    ensures |r| == n
    decreases n
  {
    if n == 0 then [] else ToBits(v / 2, n - 1) + [v % 2 == 1]
  }

  function FromBits(bits: seq<bool>): nat {
    if bits == [] then 0
    else 2 * FromBits(bits[..|bits| - 1]) + (if bits[|bits| - 1] then 1 else 0)
  }

  lemma {:induction false} FromBitsBound(bits: seq<bool>)
    ensures FromBits(bits) < Pow2(|bits|)
  {
    if bits != [] {
      FromBitsBound(bits[..|bits| - 1]);
    }
  }

  lemma {:induction false} ToFromBits(bits: seq<bool>)
    ensures ToBits(FromBits(bits), |bits|) == bits
  {
    if bits != [] {
      ToFromBits(bits[..|bits| - 1]);
    }
  }

  /** The right shift. */
  function Shr(v: nat, k: nat): nat
    decreases k
  {
    if k == 0 then v else Shr(v / 2, k - 1)
  }

  lemma ModDouble(v: nat, p: nat)
    requires p > 0
    ensures v % (2 * p) == 2 * (v / 2 % p) + v % 2 && v / (2 * p) == v / 2 / p
  {
    var q, r := v / 2 / p, v / 2 % p;
    assert v / 2 == p * q + r;
    var t := p * q;
    assert (2 * p) * q == 2 * t;
    Quotient(v, 2 * p, q, 2 * r + v % 2);
  }

  /** Division and remainder, two digits at a time. */
  lemma Digits(v: nat, a: nat, b: nat)
    requires a > 0 && b > 0
    ensures a * b > 0 && v / (a * b) == v / a / b && v % (a * b) == v % a + a * (v / a % b)
  {
    var q, r := v / a, v % a;
    var q1, r1 := q / b, q % b;
    assert v == a * q + r;
    assert q == b * q1 + r1;
    Distribute(a, b, q1, r1);
    Quotient(v, a * b, q1, a * r1 + r);
  }

  lemma Distribute(a: nat, b: nat, q: nat, r: nat)
    requires r < b
    ensures a * (b * q + r) == a * b * q + a * r && a * r + a <= a * b
  {
    MulMonotone(a, r + 1, b);
    var t := b * q;
    assert a * (t + r) == a * t + a * r;
  }

  lemma MulMonotone(a: nat, x: nat, y: nat)
    requires x <= y
    ensures a * x <= a * y
  {
  }

  lemma {:induction false} ShrIsDiv(v: nat, k: nat)
    ensures Shr(v, k) == v / Pow2(k)
    decreases k
  {
    if k > 0 {
      ShrIsDiv(v / 2, k - 1);
      ModDouble(v, Pow2(k - 1));
    }
  }

  lemma {:induction false} Pow2Add(n: nat, k: nat)
    ensures Pow2(n + k) == Pow2(n) * Pow2(k)
  {
    if n > 0 {
      Pow2Add(n - 1, k);
    }
  }

  lemma SmallPowers()
    ensures Pow2(1) == 2 && Pow2(2) == 4 && Pow2(3) == 8 && Pow2(7) == 0x80 && Pow2(8) == 0x100
  {
    assert Pow2(4) == 16;
  }

  /** The powers of two that occur as field widths. */
  lemma Powers()
    ensures Pow2(7) == 0x80 && Pow2(8) == 0x100 && Pow2(16) == 0x1_0000 && Pow2(25) == 0x200_0000
    ensures Pow2(26) == 0x400_0000 && Pow2(27) == 0x800_0000 && Pow2(31) == 0x8000_0000 && Pow2(32) == TWO32
    ensures Pow2(52) == 0x10_0000_0000_0000 && Pow2(64) == TWO64
  {
    hide Pow2;
    SmallPowers();
    Pow2Add(8, 8);
    Pow2Add(16, 8);
    Pow2Add(24, 1);
    Pow2Add(24, 2);
    Pow2Add(24, 3);
    Pow2Add(24, 7);
    Pow2Add(16, 16);
    Pow2Add(26, 26);
    Pow2Add(32, 32);
  }

  lemma {:induction false} Pow2Monotone(n: nat, m: nat)
    requires n <= m
    ensures Pow2(n) <= Pow2(m)
  {
    if n < m {
      Pow2Monotone(n, m - 1);
    }
  }

  /** (v mod 2^n), read off its bits. */
  lemma {:induction false} FromToBits(v: nat, n: nat)
    ensures FromBits(ToBits(v, n)) == v % Pow2(n)
    decreases n
  {
    if n > 0 {
      FromToBits(v / 2, n - 1);
      ModDouble(v, Pow2(n - 1));
      assert ToBits(v, n)[..n - 1] == ToBits(v / 2, n - 1);
    }
  }

  lemma ToBitsMod(v: nat, n: nat)
    ensures ToBits(v, n) == ToBits(v % Pow2(n), n)
  {
    hide ToBits, FromBits;
    ToFromBits(ToBits(v, n));
    FromToBits(v, n);
  }

  /** A wide field is the field of its high part followed by the field of its low part. */
  lemma {:induction false} ToBitsSplit(v: nat, n: nat, m: nat)
    ensures ToBits(v, n + m) == ToBits(Shr(v, m), n) + ToBits(v, m)
    decreases m
  {
    if m > 0 {
      ToBitsSplit(v / 2, n, m - 1);
      var hi, lo, last := ToBits(Shr(v, m), n), ToBits(v / 2, m - 1), [v % 2 == 1];
      assert hi + lo + last == hi + (lo + last);
    } else {
      assert ToBits(v, n) + [] == ToBits(v, n);
    }
  }

  /** Bit `k` of an n-bit field is the one a shift by n - 1 - k brings to the bottom. */
  lemma {:induction false} ToBitsAt(v: nat, n: nat, k: nat)
    requires k < n
    ensures ToBits(v, n)[k] == (Shr(v, n - 1 - k) % 2 == 1)
    decreases n
  {
    if k < n - 1 {
      ToBitsAt(v / 2, n - 1, k);
    }
  }

  /** The bits of a byte string. */
  function BitsOf(data: seq<byte>): (r: seq<bool>)
    ensures |r| == 8 * |data|
  {
    if data == [] then [] else ToBits(data[0], 8) + BitsOf(data[1..])
  }

  lemma {:induction false} BitsOfConcat(a: seq<byte>, b: seq<byte>)
    ensures BitsOf(a + b) == BitsOf(a) + BitsOf(b)
  {
    if a == [] {
      assert a + b == b;
    } else {
      assert (a + b)[1..] == a[1..] + b;
      BitsOfConcat(a[1..], b);
    }
  }

  lemma {:induction false} BitsOfAt(data: seq<byte>, i: nat, k: nat)
    requires i < |data| && k < 8
    ensures BitsOf(data)[8 * i + k] == ToBits(data[i], 8)[k]
  {
    hide ToBits;
    var first, later := ToBits(data[0], 8), BitsOf(data[1..]);
    assert BitsOf(data) == first + later;
    if i > 0 {
      BitsOfAt(data[1..], i - 1, k);
      var j := 8 * (i - 1) + k;
      assert 8 * i + k == 8 + j && (first + later)[8 + j] == later[j];
    }
  }

  /** The bits determine the bytes. */
  lemma {:induction false} BitsOfInjective(a: seq<byte>, b: seq<byte>)
    requires BitsOf(a) == BitsOf(b)
    ensures a == b
  {
    if a != [] {
      assert |BitsOf(a)| == |BitsOf(b)|;
      ByteOfBits(a);
      ByteOfBits(b);
      hide ToBits, FromBits;
      assert BitsOf(a)[8..] == BitsOf(a[1..]) && BitsOf(b)[8..] == BitsOf(b[1..]);
      BitsOfInjective(a[1..], b[1..]);
    }
  }

  lemma ByteOfBits(a: seq<byte>)
    requires a != []
    ensures FromBits(BitsOf(a)[..8]) == a[0]
  {
    hide ToBits, FromBits;
    assert BitsOf(a)[..8] == ToBits(a[0], 8);
    FromToBits(a[0], 8);
    Powers();
  }
}
