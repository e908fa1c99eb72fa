/** Bytes and the lists of bit fields that make them up, as the standards tabulate headers. */
module BitFields {
  import opened Bytes
  import opened BitStrings
  import opened BitIo

  lemma {:induction false} FieldBitsConcat(a: seq<Field>, b: seq<Field>)
    ensures FieldBits(a + b) == FieldBits(a) + FieldBits(b)
  {
    if a == [] {
      assert a + b == b;
    } else {
      assert (a + b)[1..] == a[1..] + b;
      FieldBitsConcat(a[1..], b);
    }
  }

  /** Adjacent fields are one field. */
  lemma Join(a: nat, n: nat, b: nat, m: nat)
    requires b < Pow2(m)
    ensures ToBits(a, n) + ToBits(b, m) == ToBits(a * Pow2(m) + b, n + m)
  {
    hide ToBits, Shr;
    var v := a * Pow2(m) + b;
    ToBitsSplit(v, n, m);
    ShrIsDiv(v, m);
    Quotient(v, Pow2(m), a, b);
    ToBitsMod(v, m);
  }

  lemma TwoBytes(v: nat)
    requires v < 0x1_0000
    ensures ToBits(v, 16) == ToBits(v / 0x100, 8) + ToBits(v % 0x100, 8)
  {
    Powers();
    Join(v / 0x100, 8, v % 0x100, 8);
  }

  lemma BitsOfTwo(a: byte, b: byte)
    ensures BitsOf([a, b]) == ToBits(a, 8) + ToBits(b, 8)
  {
    hide ToBits;
    assert [a, b][1..] == [b] && [b][1..] == [];
    assert BitsOf([b]) == ToBits(b, 8) + BitsOf([]);
  }

  lemma FieldBitsTwo(a: Field, b: Field)
    ensures FieldBits([a, b]) == ToBits(a.value, a.count) + ToBits(b.value, b.count)
  {
    hide ToBits;
    assert [a, b][1..] == [b] && [b][1..] == [];
    assert FieldBits([b]) == ToBits(b.value, b.count) + FieldBits([]);
  }

  lemma FieldBitsThree(a: Field, b: Field, c: Field)
    ensures FieldBits([a, b, c]) == ToBits(a.value, a.count) + (ToBits(b.value, b.count) + ToBits(c.value, c.count))
  {
    hide ToBits;
    FieldBitsTwo(b, c);
    assert [a, b, c][1..] == [b, c];
  }

  lemma BitsOfOne(a: byte)
    ensures BitsOf([a]) == ToBits(a, 8)
  {
    hide ToBits;
    assert [a][1..] == [];
    assert BitsOf([a]) == ToBits(a, 8) + BitsOf([]);
  }

  /** A field in front of fields that already make up one number. */
  lemma Prepend(f: Field, rest: seq<Field>, v: nat, n: nat)
    requires FieldBits(rest) == ToBits(v, n) && v < Pow2(n)
    ensures FieldBits([f] + rest) == ToBits(f.value * Pow2(n) + v, f.count + n)
  {
    hide ToBits, Pow2;
    assert ([f] + rest)[1..] == rest;
    Join(f.value, f.count, v, n);
  }

  // ---------------------------------------------------------------- whole bytes

  lemma Be16Bits(n: nat)
    ensures ToBits(n, 16) == BitsOf(Be16(n))
  {
    hide BitsOf, ToBits, Pow2;
    var v := n % 0x1_0000;
    Powers();
    ToBitsMod(n, 16);
    TwoBytes(v);
    BitsOfTwo(v / 0x100, v % 0x100);
    Be16Mod(n);
  }

  lemma Be16Mod(n: nat)
    ensures var v := n % 0x1_0000; Be16(n) == Be16(v) == [v / 0x100, v % 0x100]
  {
    var q, v := n / 0x1_0000, n % 0x1_0000;
    var a, b := v / 0x100, v % 0x100;
    Quotient(n, 0x100, 0x100 * q + a, b);
    Quotient(0x100 * q + a, 0x100, q, a);
  }

  lemma Be24Bits(n: nat)
    ensures ToBits(n, 24) == BitsOf(Be24(n))
  {
    hide BitsOf, ToBits, Be16, Pow2, Shr;
    LastByte(n, 16);
    Be16Bits(n / 0x100);
    BitsOfConcat(Be16(n / 0x100), [n % 0x100]);
  }

  lemma Be32Bits(n: nat)
    ensures ToBits(n, 32) == BitsOf(Be32(n))
  {
    hide BitsOf, ToBits, Be24, Pow2, Shr;
    LastByte(n, 24);
    Be24Bits(n / 0x100);
    BitsOfConcat(Be24(n / 0x100), [n % 0x100]);
  }

  lemma LastByte(n: nat, k: nat)
    ensures ToBits(n, k + 8) == ToBits(n / 0x100, k) + BitsOf([n % 0x100])
  {
    hide BitsOf, ToBits, Pow2, Shr;
    ToBitsSplit(n, k, 8);
    ShrIsDiv(n, 8);
    SmallPowers();
    ToBitsMod(n, 8);
    BitsOfOne(n % 0x100);
  }

  lemma NoFields()
    ensures FieldBits([]) == BitsOf([]) == []
  {
  }

  /** Two lists one after the other, and their bytes. */
  lemma Glue(a: seq<Field>, x: seq<byte>, b: seq<Field>, y: seq<byte>)
    requires FieldBits(a) == BitsOf(x) && FieldBits(b) == BitsOf(y)
    ensures FieldBits(a + b) == BitsOf(x + y)
  {
    hide FieldBits, BitsOf;
    FieldBitsConcat(a, b);
    BitsOfConcat(x, y);
  }

  lemma FieldBitsOne(f: Field)
    ensures FieldBits([f]) == ToBits(f.value, f.count)
  {
    hide ToBits;
    assert [f][1..] == [];
    assert FieldBits([f]) == ToBits(f.value, f.count) + FieldBits([]);
  }

  /** Fields of whole bytes. */
  lemma ByteField(b: byte)
    ensures FieldBits([Field(8, b)]) == BitsOf([b])
  {
    hide ToBits, FieldBits, BitsOf;
    FieldBitsOne(Field(8, b));
    BitsOfOne(b);
  }

  lemma WordField(n: nat)
    ensures FieldBits([Field(16, n)]) == BitsOf(Be16(n))
    ensures FieldBits([Field(24, n)]) == BitsOf(Be24(n))
    ensures FieldBits([Field(32, n)]) == BitsOf(Be32(n))
  {
    hide ToBits, FieldBits, BitsOf, Be16, Be24, Be32;
    FieldBitsOne(Field(16, n));
    FieldBitsOne(Field(24, n));
    FieldBitsOne(Field(32, n));
    Be16Bits(n);
    Be24Bits(n);
    Be32Bits(n);
  }

  // ---------------------------------------------------------------- bytes of several fields

  lemma PowersTo8()
    ensures Pow2(1) == 2 && Pow2(2) == 4 && Pow2(3) == 8 && Pow2(4) == 16
    ensures Pow2(5) == 32 && Pow2(6) == 64 && Pow2(7) == 128 && Pow2(8) == 256
  {
    SmallPowers();
    assert Pow2(4) == 16 && Pow2(5) == 32 && Pow2(6) == 64;
  }

  predicate Narrow(f: Field) { f.value < Pow2(f.count) }

  /** Two fields that fill a byte. */
  lemma Byte2(a: Field, b: Field, v: byte)
    requires a.count + b.count == 8 && Narrow(b) && v == a.value * Pow2(b.count) + b.value
    ensures FieldBits([a, b]) == BitsOf([v])
  {
    hide ToBits, FieldBits, BitsOf, Pow2;
    FieldBitsTwo(a, b);
    Join(a.value, a.count, b.value, b.count);
    BitsOfOne(v);
  }

  lemma Byte3(a: Field, b: Field, c: Field, v: byte)
    requires a.count + b.count + c.count == 8 && Narrow(b) && Narrow(c)
    requires v == (a.value * Pow2(b.count) + b.value) * Pow2(c.count) + c.value
    ensures FieldBits([a, b, c]) == BitsOf([v])
  {
    hide ToBits, FieldBits, BitsOf, Pow2;
    var ab := Merged(a, b);
    MergeFront(a, b, [c]);
    assert [a, b] + [c] == [a, b, c] && [ab] + [c] == [ab, c];
    Byte2(ab, c, v);
  }

  lemma Byte4(a: Field, b: Field, c: Field, d: Field, v: byte)
    requires a.count + b.count + c.count + d.count == 8 && Narrow(b) && Narrow(c) && Narrow(d)
    requires v == ((a.value * Pow2(b.count) + b.value) * Pow2(c.count) + c.value) * Pow2(d.count) + d.value
    ensures FieldBits([a, b, c, d]) == BitsOf([v])
  {
    hide ToBits, FieldBits, BitsOf, Pow2;
    var ab := Merged(a, b);
    MergeFront(a, b, [c, d]);
    assert [a, b] + [c, d] == [a, b, c, d] && [ab] + [c, d] == [ab, c, d];
    Byte3(ab, c, d, v);
  }

  function Merged(a: Field, b: Field): Field { Field(a.count + b.count, a.value * Pow2(b.count) + b.value) }

  /** Two adjacent fields may be taken for one, and one for two. */
  lemma Merge(a: Field, b: Field)
    requires Narrow(b)
    ensures FieldBits([a, b]) == FieldBits([Merged(a, b)])
  {
    hide ToBits, FieldBits, Pow2;
    FieldBitsTwo(a, b);
    Join(a.value, a.count, b.value, b.count);
    FieldBitsOne(Merged(a, b));
  }

  lemma MergeFront(a: Field, b: Field, rest: seq<Field>)
    requires Narrow(b)
    ensures FieldBits([a, b] + rest) == FieldBits([Merged(a, b)] + rest)
  {
    hide FieldBits, Pow2, Merged;
    Merge(a, b);
    FieldBitsConcat([a, b], rest);
    FieldBitsConcat([Merged(a, b)], rest);
  }

  lemma MergeThree(a: Field, b: Field, c: Field, p: nat, q: nat)
    requires Narrow(b) && Narrow(c) && p == Pow2(b.count) && q == Pow2(c.count)
    ensures FieldBits([a, b, c]) ==
            FieldBits([Field(a.count + b.count + c.count, (a.value * p + b.value) * q + c.value)])
  {
    hide FieldBits, Pow2;
    var ab := Merged(a, b);
    MergeFront(a, b, [c]);
    assert [a, b] + [c] == [a, b, c] && [ab] + [c] == [ab, c];
    Merge(ab, c);
  }

  lemma Replace(before: seq<Field>, x: seq<Field>, y: seq<Field>, after: seq<Field>)
    requires FieldBits(x) == FieldBits(y)
    ensures FieldBits(before + x + after) == FieldBits(before + y + after)
  {
    hide FieldBits;
    FieldBitsConcat(before + x, after);
    FieldBitsConcat(before, x);
    FieldBitsConcat(before + y, after);
    FieldBitsConcat(before, y);
  }
}
