/** The bit-at-a-time writer and reader of file/libmpeg/ps/utils.cpp, on a byte buffer in place. */
module BitIo {
  import opened Bytes
  import opened BitStrings

  /** A field of a header: its width in bits and the value handed to bits_write. */
  datatype Field = Field(count: nat, value: nat)

  /** The bits of a list of fields, in order. */
  function FieldBits(fields: seq<Field>): seq<bool> {
    if fields == [] then [] else ToBits(fields[0].value, fields[0].count) + FieldBits(fields[1..])
  }

  /** bits_write shifts a 64-bit number. */
  predicate Fits(fields: seq<Field>) {
    forall f <- fields :: f.count <= 64 && f.value < TWO64
  }

  lemma FitsConcat(a: seq<Field>, b: seq<Field>)
    requires Fits(a) && Fits(b)
    ensures Fits(a + b)
  {
  }

  function Overwrite(bits: seq<bool>, at: nat, with: seq<bool>): (r: seq<bool>)
    requires at + |with| <= |bits|
    ensures |r| == |bits|
  {
    bits[..at] + with + bits[at + |with|..]
  }

  lemma OverwriteTwice(bits: seq<bool>, at: nat, a: seq<bool>, b: seq<bool>)
    requires at + |a| + |b| <= |bits|
    ensures Overwrite(Overwrite(bits, at, a), at + |a|, b) == Overwrite(bits, at, a + b)
  {
    var once := Overwrite(bits, at, a);
    assert once[..at + |a|] == bits[..at] + a;
    assert once[at + |a| + |b|..] == bits[at + |a| + |b|..];
  }

  /** What a reader gets for one width: the bits as an unsigned long. */
  function FieldValue(bits: seq<bool>, at: nat, count: nat): nat
    requires at + count <= |bits|
  {
    FromBits(bits[at..at + count])
  }

  function FieldValues(bits: seq<bool>, at: nat, counts: seq<nat>): seq<nat>
    requires at + Total(counts) <= |bits|
    decreases |counts|
  {
    if counts == [] then []
    else [FieldValue(bits, at, counts[0])] + FieldValues(bits, at + counts[0], counts[1..])
  }

  function Total(counts: seq<nat>): nat {
    if counts == [] then 0 else counts[0] + Total(counts[1..])
  }

  function Counts(fields: seq<Field>): seq<nat> {
    if fields == [] then [] else [fields[0].count] + Counts(fields[1..])
  }

  /** Each value, cut to the width of its field. */
  function Truncated(fields: seq<Field>): seq<nat> {
    if fields == [] then [] else [fields[0].value % Pow2(fields[0].count)] + Truncated(fields[1..])
  }

  lemma SliceOfTwo(bits: seq<bool>, at: nat, a: seq<bool>, b: seq<bool>)
    requires at + |a + b| <= |bits| && bits[at..at + |a + b|] == a + b
    ensures bits[at..at + |a|] == a && bits[at + |a|..at + |a| + |b|] == b
  {
    var s := bits[at..at + |a + b|];
    assert bits[at..at + |a|] == s[..|a|] && bits[at + |a|..at + |a| + |b|] == s[|a|..];
  }

  /** Where a list of fields was written, the same widths read back every value modulo its width. */
  lemma {:induction false} ReadBack(bits: seq<bool>, at: nat, fields: seq<Field>)
    requires at + |FieldBits(fields)| <= |bits| && bits[at..at + |FieldBits(fields)|] == FieldBits(fields)
    ensures Total(Counts(fields)) == |FieldBits(fields)|
    ensures FieldValues(bits, at, Counts(fields)) == Truncated(fields)
    decreases |fields|
  {
    hide ToBits, FromBits, Pow2;
    if fields != [] {
      var n := fields[0].count;
      var rest := fields[1..];
      var first := ToBits(fields[0].value, n);
      SliceOfTwo(bits, at, first, FieldBits(rest));
      FromToBits(fields[0].value, n);
      ReadBack(bits, at + n, rest);
      assert Counts(fields)[1..] == Counts(rest);
    }
  }

  lemma OneMoreBit(bits: seq<bool>, start: nat, n: nat)
    requires start + n < |bits|
    ensures FromBits(bits[start..start + n + 1]) ==
            2 * FromBits(bits[start..start + n]) + if bits[start + n] then 1 else 0
  {
    assert bits[start..start + n + 1][..n] == bits[start..start + n];
  }

  lemma NoBits(bits: seq<bool>, start: nat)
    requires start <= |bits|
    ensures FromBits(bits[start..start]) == 0
  {
  }

  // ---------------------------------------------------------------- one bit of a byte

  lemma {:induction false} FlipBit(bits: seq<bool>, k: nat)
    requires k < |bits| && !bits[k]
    ensures FromBits(bits[k := true]) == FromBits(bits) + Pow2(|bits| - 1 - k)
  {
    var n := |bits| - 1;
    if k == n {
      assert bits[k := true][..n] == bits[..n];
    } else {
      FlipBit(bits[..n], k);
      assert bits[k := true][..n] == bits[..n][k := true];
    }
  }

  /** `b | mask` or `b & ~mask`, for a mask of one bit. */
  function SetBit(b: byte, mask: nat, on: bool): int
    requires mask > 0
  {
    if (b / mask % 2 == 1) == on then b else if on then b + mask else b - mask
  }

  lemma MaskSelects(b: byte, k: nat)
    requires k < 8
    ensures (b / Pow2(7 - k) % 2 == 1) == ToBits(b, 8)[k]
  {
    hide ToBits, Pow2, Shr;
    ToBitsAt(b, 8, k);
    ShrIsDiv(b, 7 - k);
  }

  lemma SetBitValue(b: byte, k: nat, on: bool)
    requires k < 8
    ensures var r := SetBit(b, Pow2(7 - k), on);
            0 <= r < 256 && ToBits(r, 8) == ToBits(b, 8)[k := on]
  {
    hide ToBits, FromBits, Pow2, SetBit;
    var bits := ToBits(b, 8);
    Powers();
    FromToBits(b, 8);
    MaskSelects(b, k);
    SetBitCases(b, Pow2(7 - k), on, bits[k]);
    var after := bits[k := on];
    ToFromBits(after);
    FromBitsBound(after);
    if bits[k] == on {
      assert after == bits;
    } else if on {
      FlipBit(bits, k);
    } else {
      FlipBit(after, k);
      assert after[k := true] == bits;
    }
  }

  lemma SetBitCases(b: byte, mask: nat, on: bool, isSet: bool)
    requires mask > 0 && (b / mask % 2 == 1) == isSet
    ensures SetBit(b, mask, on) == if isSet == on then b as int else if on then b + mask else b - mask
  {
  }

  lemma BitsOfUpdate(data: seq<byte>, i: nat, k: nat, b1: byte, on: bool)
    requires i < |data| && k < 8 && ToBits(b1, 8) == ToBits(data[i], 8)[k := on]
    ensures BitsOf(data[i := b1]) == BitsOf(data)[8 * i + k := on]
  {
    hide ToBits, BitsOf;
    var before, b, after := data[..i], data[i], data[i + 1..];
    assert data == before + ([b] + after);
    assert data[i := b1] == before + ([b1] + after);
    BitsAround(before, b, after);
    BitsAround(before, b1, after);
    UpdateInside(BitsOf(before), ToBits(b, 8), BitsOf(after), k, on);
  }

  lemma BitsAround(before: seq<byte>, b: byte, after: seq<byte>)
    ensures BitsOf(before + ([b] + after)) == BitsOf(before) + (ToBits(b, 8) + BitsOf(after))
  {
    hide ToBits;
    BitsOfConcat(before, [b] + after);
    assert ([b] + after)[1..] == after;
  }

  lemma UpdateInside(x: seq<bool>, s: seq<bool>, y: seq<bool>, k: nat, on: bool)
    requires k < |s|
    ensures (x + (s + y))[|x| + k := on] == x + (s[k := on] + y)
  {
  }

  // ---------------------------------------------------------------- the buffer

  /** BITS_BUFFER_S: the bit at the cursor is the one `mask` selects in data[pos]. */
  class BitsBuffer {
    const data: array<byte>
    var pos: nat
    var mask: byte
    /** The position of the mask in its byte. */
    ghost var k: nat

    ghost predicate Valid()
      reads this
    {
      k < 8 && mask == Pow2(7 - k)
    }

    ghost function Bits(): (r: seq<bool>)
      reads data
      ensures |r| == 8 * data.Length
    {
      BitsOf(data[..])
    }

    ghost function Cursor(): nat
      reads this
    {
      8 * pos + k
    }

    constructor (data: array<byte>)
      ensures this.data == data && Valid() && Cursor() == 0
    {
      this.data := data;
      pos, mask, k := 0, 0x80, 0;
      assert Pow2(7) == 0x80;
    }

    method Advance()
      requires Valid()
      modifies this
      ensures Valid() && Cursor() == old(Cursor()) + 1
    {
      mask := mask / 2;
      k := k + 1;
      if mask == 0 {
        pos := pos + 1;
        mask := 0x80;
        k := 0;
        assert Pow2(7) == 0x80;
      }
    }

    /** Store one bit at the cursor. */
    method WriteBit(on: bool)
      requires Valid() && Cursor() < |Bits()|
      modifies this, data
      ensures Valid() && Cursor() == old(Cursor()) + 1
      ensures Bits() == old(Bits())[old(Cursor()) := on]
    {
      hide BitsOf, ToBits;
      SetBitValue(data[pos], k, on);
      ghost var before := data[..];
      var b := SetBit(data[pos], mask, on);
      BitsOfUpdate(before, pos, k, b, on);
      data[pos] := b;
      assert data[..] == before[pos := b];
      Advance();
    }

    /** bits_write: the low `count` bits of `value`, most significant first; nothing else changes. */
    method Write(count: nat, value: nat)
      requires Valid() && Cursor() + count <= |Bits()|
      requires count <= 64 && value < TWO64
      modifies this, data
      ensures Valid() && Cursor() == old(Cursor()) + count
      ensures Bits() == Overwrite(old(Bits()), old(Cursor()), ToBits(value, count))
    {
      hide BitsOf, ToBits;
      ghost var start, bits0, field := Cursor(), Bits(), ToBits(value, count);
      var left := count;
      assert Overwrite(bits0, start, field[..0]) == bits0;
      while left > 0
        invariant 0 <= left <= count && Valid() && Cursor() == start + count - left
        invariant Bits() == Overwrite(bits0, start, field[..count - left])
      {
        left := left - 1;
        ghost var done := count - left - 1;
        ToBitsAt(value, count, done);
        OverwriteNext(bits0, start, field, done);
        WriteBit(Shr(value, left) % 2 == 1);
      }
      assert field[..count] == field;
    }

    /** bits_read: `count` bits as an unsigned number. */
    method Read(count: nat) returns (value: nat)
      requires Valid() && Cursor() + count <= |Bits()| && count <= 64
      modifies this
      ensures Valid() && Cursor() == old(Cursor()) + count
      ensures value == FieldValue(Bits(), old(Cursor()), count) && value < TWO64
    {
      hide BitsOf, ToBits, FromBits, Pow2;
      ghost var start, bits := Cursor(), Bits();
      value := 0;
      var left := count;
      NoBits(bits, start);
      while left > 0
        invariant 0 <= left <= count && Valid() && Cursor() == start + count - left
        invariant value == (if left > 0 then 2 else 1) * FromBits(bits[start..start + count - left])
      {
        left := left - 1;
        ghost var done := count - left - 1;
        BitsOfAt(data[..], pos, k);
        MaskSelects(data[pos], k);
        OneMoreBit(bits, start, done);
        if data[pos] / mask % 2 == 1 {
          value := value + 1;
        }
        if left > 0 {
          value := value * 2;
        }
        Advance();
      }
      FromBitsBound(bits[start..start + count]);
      Pow2Monotone(count, 64);
      Powers();
    }

    /** Several fields, one after the other. */
    method WriteAll(fields: seq<Field>)
      requires Valid() && Cursor() + |FieldBits(fields)| <= |Bits()|
      requires Fits(fields)
      modifies this, data
      ensures Valid() && Cursor() == old(Cursor()) + |FieldBits(fields)|
      ensures Bits() == Overwrite(old(Bits()), old(Cursor()), FieldBits(fields))
    {
      hide BitsOf, ToBits;
      ghost var start, bits0 := Cursor(), Bits();
      var i := 0;
      ghost var out: seq<bool> := [];
      assert Overwrite(bits0, start, out) == bits0;
      while i < |fields|
        invariant 0 <= i <= |fields| && Valid() && Cursor() == start + |out|
        invariant out + FieldBits(fields[i..]) == FieldBits(fields)
        invariant start + |out| <= |bits0| && Bits() == Overwrite(bits0, start, out)
      {
        assert fields[i] in fields && fields[i..][1..] == fields[i + 1..];
        ghost var field := ToBits(fields[i].value, fields[i].count);
        assert out + FieldBits(fields[i..]) == out + field + FieldBits(fields[i + 1..]);
        OverwriteTwice(bits0, start, out, field);
        Write(fields[i].count, fields[i].value);
        out := out + field;
        i := i + 1;
      }
      assert fields[i..] == [] && out + [] == out;
    }

    /** The same widths, read one after the other. */
    method ReadAll(counts: seq<nat>) returns (values: seq<nat>)
      requires Valid() && Cursor() + Total(counts) <= |Bits()|
      requires forall c <- counts :: c <= 64
      modifies this
      ensures Valid() && Cursor() == old(Cursor()) + Total(counts)
      ensures values == FieldValues(Bits(), old(Cursor()), counts)
    {
      hide BitsOf, FieldValue;
      ghost var bits := Bits();
      values := [];
      var i := 0;
      while i < |counts|
        invariant 0 <= i <= |counts| && Valid()
        invariant Cursor() + Total(counts[i..]) == old(Cursor()) + Total(counts)
        invariant values + FieldValues(bits, Cursor(), counts[i..]) == FieldValues(bits, old(Cursor()), counts)
      {
        assert counts[i] in counts && counts[i..][1..] == counts[i + 1..];
        ghost var at := Cursor();
        var v := Read(counts[i]);
        assert values + FieldValues(bits, at, counts[i..]) ==
               values + [v] + FieldValues(bits, at + counts[i], counts[i + 1..]);
        values := values + [v];
        i := i + 1;
      }
      assert counts[i..] == [] && values + [] == values;
    }
  }

  /**
   * Writing a list of fields and reading the same widths at the same place returns every value
   * modulo 2^width; no bit outside the written range changes.
   */
  lemma WriteReadBack(bits: seq<bool>, at: nat, fields: seq<Field>)
    requires at + |FieldBits(fields)| <= |bits|
    ensures var after := Overwrite(bits, at, FieldBits(fields));
            && Total(Counts(fields)) == |FieldBits(fields)|
            && FieldValues(after, at, Counts(fields)) == Truncated(fields)
            && forall i :: 0 <= i < |bits| && !(at <= i < at + |FieldBits(fields)|) ==> after[i] == bits[i]
  {
    var after := Overwrite(bits, at, FieldBits(fields));
    assert after[at..at + |FieldBits(fields)|] == FieldBits(fields);
    ReadBack(after, at, fields);
  }

  lemma OverwriteNext(bits: seq<bool>, at: nat, field: seq<bool>, n: nat)
    requires n < |field| && at + |field| <= |bits|
    ensures Overwrite(bits, at, field[..n])[at + n := field[n]] == Overwrite(bits, at, field[..n + 1])
  {
  }
}
