/** Bytes, byte strings and the fixed-width integer codings shared by every format. */
module Bytes {
  type byte = x: int | 0 <= x < 256

  const TWO16 := 0x1_0000
  const TWO32 := 0x1_0000_0000
  const TWO33 := 0x2_0000_0000
  const TWO64 := 0x1_0000_0000_0000_0000

  datatype Option<T> = None | Some(value: T)

  /** The four-byte start code of Annex B. */
  const START_CODE: seq<byte> := [0, 0, 0, 1]

  /** Big-endian codings, most significant byte first; wider values are truncated. */
  function Be16(v: nat): (s: seq<byte>)
    ensures |s| == 2
  {
    [v / 0x100 % 0x100, v % 0x100]
  }

  function Be24(v: nat): (s: seq<byte>)
    ensures |s| == 3
  {
    Be16(v / 0x100) + [v % 0x100]
  }

  function Be32(v: nat): (s: seq<byte>)
    ensures |s| == 4
  {
    Be24(v / 0x100) + [v % 0x100]
  }

  function Le32(v: nat): (s: seq<byte>)
    ensures |s| == 4
  {
    var b := Be32(v);
    [b[3], b[2], b[1], b[0]]
  }

  function LoadBe16(s: seq<byte>): (v: nat)
    requires |s| >= 2
    ensures v < 0x1_0000
  {
    (s[0] as int) * 0x100 + s[1]
  }

  function LoadBe24(s: seq<byte>): (v: nat)
    requires |s| >= 3
    ensures v < 0x100_0000
  {
    LoadBe16(s) * 0x100 + s[2]
  }

  function LoadBe32(s: seq<byte>): (v: nat)
    requires |s| >= 4
    ensures v < 0x1_0000_0000
  {
    LoadBe24(s) * 0x100 + s[3]
  }

  function LoadLe32(s: seq<byte>): (v: nat)
    requires |s| >= 4
    ensures v < 0x1_0000_0000
  {
    LoadBe32([s[3], s[2], s[1], s[0]])
  }

  /** Quotient and remainder are the only ones. */
  lemma Quotient(v: nat, d: nat, q: nat, r: nat)
    requires d > 0 && v == d * q + r && r < d
    ensures v / d == q && v % d == r
  {
    var q1, r1 := v / d, v % d;
    assert v == d * q1 + r1;
    assert q1 < q ==> d * q1 + d <= d * q by {
      assert q1 < q ==> d * (q1 + 1) <= d * q;
    }
    assert q1 > q ==> d * q + d <= d * q1 by {
      assert q1 > q ==> d * (q + 1) <= d * q1;
    }
  }

  lemma Be16RoundTrip(v: nat)
    ensures LoadBe16(Be16(v)) == v % 0x1_0000
  {
    Quotient(v, 0x1_0000, v / 0x100 / 0x100, v / 0x100 % 0x100 * 0x100 + v % 0x100);
  }

  lemma Be24RoundTrip(v: nat)
    ensures LoadBe24(Be24(v)) == v % 0x100_0000
  {
    var hi := v / 0x100;
    Be16RoundTrip(hi);
    FrontOf(Be16(hi), v % 0x100);
    hide Be16, LoadBe16;
    Quotient(v, 0x100_0000, hi / 0x1_0000, hi % 0x1_0000 * 0x100 + v % 0x100);
  }

  lemma Be32RoundTrip(v: nat)
    ensures LoadBe32(Be32(v)) == v % 0x1_0000_0000
  {
    var hi := v / 0x100;
    Be24RoundTrip(hi);
    FrontOf(Be24(hi), v % 0x100);
    hide Be24, LoadBe24;
    Quotient(v, 0x1_0000_0000, hi / 0x100_0000, hi % 0x100_0000 * 0x100 + v % 0x100);
  }

  /** One byte more behind a number does not change the number. */
  lemma FrontOf(s: seq<byte>, b: byte)
    ensures |s| == 2 ==> LoadBe16(s + [b]) == LoadBe16(s)
    ensures |s| == 3 ==> LoadBe24(s + [b]) == LoadBe24(s)
  {
  }

  lemma Le32RoundTrip(v: nat)
    ensures LoadLe32(Le32(v)) == v % 0x1_0000_0000
  {
    Be32RoundTrip(v);
  }

  /** The concatenation of a list of sequences. */
  function Flatten<T>(ss: seq<seq<T>>): seq<T> {
    if ss == [] then [] else ss[0] + Flatten(ss[1..])
  }

  lemma {:induction false} FlattenConcat<T>(a: seq<seq<T>>, b: seq<seq<T>>)
    ensures Flatten(a + b) == Flatten(a) + Flatten(b)
  {
    if a == [] {
      assert a + b == b;
    } else {
      assert (a + b)[1..] == a[1..] + b;
      FlattenConcat(a[1..], b);
    }
  }

  lemma FlattenCons<T>(first: seq<T>, later: seq<seq<T>>)
    ensures Flatten([first] + later) == first + Flatten(later)
  {
    assert ([first] + later)[1..] == later;
  }

  lemma FlattenOne<T>(s: seq<T>)
    ensures Flatten([s]) == s
  {
    assert Flatten([s]) == s + Flatten<T>([]);
  }

  /** Byte strings, each behind a start code. */
  function Prefixed(units: seq<seq<byte>>): (r: seq<seq<byte>>)
    ensures |r| == |units|
  {
    if units == [] then [] else [START_CODE + units[0]] + Prefixed(units[1..])
  }

  /** `n` successive values of a counter that wraps at `modulus`. */
  function Consecutive(from: nat, n: nat, modulus: nat): (r: seq<nat>)
    requires modulus > 0
    ensures |r| == n
    decreases n
  {
    if n == 0 then [] else [from % modulus] + Consecutive(from + 1, n - 1, modulus)
  }

  lemma {:induction false} ConsecutiveConcat(from: nat, n: nat, k: nat, modulus: nat)
    requires modulus > 0
    ensures Consecutive(from, n, modulus) + Consecutive(from + n, k, modulus) == Consecutive(from, n + k, modulus)
    decreases n
  {
    if n > 0 {
      ConsecutiveConcat(from + 1, n - 1, k, modulus);
    }
  }

  lemma SliceOfSlice<T>(s: seq<T>, lo: nat, hi: nat, at: nat, n: nat)
    requires lo + at + n <= hi <= |s|
    ensures s[lo..hi][at..at + n] == s[lo + at..lo + at + n]
  {
    var outer, inner := s[lo..hi], s[lo + at..lo + at + n];
    assert forall k :: 0 <= k < n ==> inner[k] == outer[at..at + n][k];
  }

  function Min(a: int, b: int): int { if a < b then a else b }
}
