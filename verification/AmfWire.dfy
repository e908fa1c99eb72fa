/**
 * AMF on the wire: the bytes of the writer bit by bit (section 2 of the AMF0 specification), and what
 * the reader makes of bytes that another program has written.
 */
module AmfWire {
  import opened Bytes
  import opened BitStrings
  import opened BitFields
  import opened Amf0

  // ---------------------------------------------------------------- the writer, bit by bit

  /** A one-byte marker, then the value; lengths have 16 bits and numbers 64. */
  function WireBits(v: Value): seq<bool> {
    match v
    case Number(bits) => ToBits(0, 8) + ToBits(bits, 64)
    case Integer(i) => ToBits(0, 8) + ToBits(DoubleBits(i), 64)
    case Boolean(b) => ToBits(1, 8) + ToBits(if b then 1 else 0, 8)
    case String(s) => ToBits(2, 8) + (ToBits(|s|, 16) + BitsOf(s))
    case Object(fs) => ToBits(3, 8) + (FieldsBits(fs) + (ToBits(0, 16) + ToBits(9, 8)))
    case Null => ToBits(5, 8)
    case Undefined => []
  }

  function FieldsBits(fs: seq<Field>): seq<bool> {
    if fs == [] then []
    else ToBits(|fs[0].key|, 16) + BitsOf(fs[0].key) + WireBits(fs[0].value) + FieldsBits(fs[1..])
  }

  /** An ECMA array: marker, a count of zero, fields and end as in an object. */
  function EcmaBits(fs: seq<Field>): seq<bool> {
    ToBits(8, 8) + (ToBits(0, 32) + (FieldsBits(fs) + (ToBits(0, 16) + ToBits(9, 8))))
  }

  lemma Tagged(tag: byte, rest: seq<byte>)
    ensures BitsOf([tag] + rest) == ToBits(tag, 8) + BitsOf(rest)
  {
    hide BitsOf, ToBits;
    BitsOfConcat([tag], rest);
    BitsOfOne(tag);
  }

  lemma NumberBits(bits: bits64)
    ensures BitsOf(EncodeNumber(bits)) == ToBits(0, 8) + ToBits(bits, 64)
  {
    hide BitsOf, ToBits, Be32, Shr, Pow2;
    var hi, lo := Be32(bits / TWO32), Be32(bits % TWO32);
    Tagged(0, hi + lo);
    BitsOfConcat(hi, lo);
    Be32Bits(bits / TWO32);
    Be32Bits(bits % TWO32);
    Powers();
    ToBitsSplit(bits, 32, 32);
    ShrIsDiv(bits, 32);
    ToBitsMod(bits, 32);
  }

  lemma StringBits(s: seq<byte>)
    ensures BitsOf(EncodeString(s)) == ToBits(|s|, 16) + BitsOf(s)
  {
    hide BitsOf, ToBits, Be16;
    BitsOfConcat(Be16(|s|), s);
    Be16Bits(|s|);
  }

  lemma EndBits()
    ensures BitsOf([0, 0] + [9]) == ToBits(0, 16) + ToBits(9, 8)
  {
    hide BitsOf, ToBits;
    BitsOfConcat([0, 0], [9]);
    Be16Bits(0);
    assert Be16(0) == [0, 0];
    BitsOfOne(9);
  }

  /** What amf_write appends, for every value. */
  lemma {:induction false} WireLayout(v: Value)
    ensures BitsOf(Encode(v)) == WireBits(v)
    decreases v
  {
    hide BitsOf, ToBits, EncodeNumber, EncodeString, DoubleBits, EncodeFields;
    match v {
      case Number(bits) => NumberBits(bits);
      case Integer(i) => NumberBits(DoubleBits(i));
      case Boolean(b) => BitsOfTwo(1, if b then 1 else 0);
      case String(s) =>
        Tagged(2, EncodeString(s));
        StringBits(s);
      case Null => BitsOfOne(5);
      case Undefined => NoBits();
      case Object(fs) =>
        Tagged(3, EncodeFields(fs) + ([0, 0] + [9]));
        BitsOfConcat(EncodeFields(fs), [0, 0] + [9]);
        EndBits();
        FieldsLayout(fs);
    }
  }

  lemma NoBits()
    ensures BitsOf([]) == []
  {
  }

  lemma {:induction false} FieldsLayout(fs: seq<Field>)
    ensures BitsOf(EncodeFields(fs)) == FieldsBits(fs)
    decreases fs
  {
    hide BitsOf, ToBits, EncodeString, Encode, WireBits;
    if fs == [] {
      NoBits();
    } else {
      var f := fs[0];
      BitsOfConcat(EncodeField(f), EncodeFields(fs[1..]));
      BitsOfConcat(EncodeString(f.key), Encode(f.value));
      StringBits(f.key);
      WireLayout(f.value);
      FieldsLayout(fs[1..]);
    }
  }

  lemma EcmaLayout(fs: seq<Field>)
    ensures BitsOf(EncodeEcma(fs)) == EcmaBits(fs)
  {
    hide BitsOf, ToBits, EncodeFields, FieldsBits;
    var body := EncodeFields(fs) + ([0, 0] + [9]);
    Tagged(8, [0, 0, 0, 0] + body);
    BitsOfConcat([0, 0, 0, 0], body);
    BitsOfConcat(EncodeFields(fs), [0, 0] + [9]);
    Be32Bits(0);
    assert Be32(0) == [0, 0, 0, 0];
    EndBits();
    FieldsLayout(fs);
  }

  // ---------------------------------------------------------------- objects of another writer

  /** Fields put into a std::map one after the other. */
  function InsertAll(acc: seq<Field>, fs: seq<Field>): seq<Field>
    decreases |fs|
  {
    if fs == [] then acc else InsertAll(Insert(acc, fs[0].key, Norm(fs[0].value)), fs[1..])
  }

  /** The value of a key, if there is one; the first counts. */
  function Lookup(fs: seq<Field>, k: Key): Option<Value> {
    if fs == [] then None else if fs[0].key == k then Some(fs[0].value) else Lookup(fs[1..], k)
  }

  predicate Readable(fs: seq<Field>) {
    forall f <- fs :: 0 < |f.key| < 0x1_0000 && Writable(f.value)
  }

  /** The field loop takes fields in any order and with repeated keys. */
  lemma {:induction false} LoadAnyFields(buf: seq<byte>, pos: nat, acc: seq<Field>, fs: seq<Field>)
    requires At(buf, pos, EncodeFields(fs) + ([0, 0] + [9])) && Readable(fs)
    ensures LoadFields(buf, pos, 0, acc) == Loaded(InsertAll(acc, fs), pos + |EncodeFields(fs)| + 3, 0)
    decreases |fs|
  {
    hide LoadFields, LoadKey, Load, Insert, EncodeString, At, Norm, Encode;
    var end := [0, 0] + [OBJECT_END];
    if fs == [] {
      assert EncodeFields(fs) + end == end;
      LoadFieldsEnd(buf, pos, acc);
    } else {
      var f, rest := fs[0], fs[1..];
      assert f in fs && forall g <- rest :: g in fs;
      assert EncodeFields(fs) + end == EncodeField(f) + (EncodeFields(rest) + end);
      AtSplit(buf, pos, EncodeField(f), EncodeFields(rest) + end);
      AtSplit(buf, pos, EncodeString(f.key), Encode(f.value));
      LoadKeyAt(buf, pos, f.key);
      LoadAt(buf, pos + |EncodeString(f.key)|, f.value);
      LoadFieldsStep(buf, pos, acc, f.key, Norm(f.value), pos + |EncodeString(f.key)|, pos + |EncodeField(f)|);
      LoadAnyFields(buf, pos + |EncodeField(f)|, Insert(acc, f.key, Norm(f.value)), rest);
    }
  }

  lemma {:induction false} LessTotal(a: Key, b: Key)
    ensures a == b || Less(a, b) || Less(b, a)
  {
    if a != [] && b != [] && a[0] == b[0] {
      LessTotal(a[1..], b[1..]);
      assert a == [a[0]] + a[1..] && b == [b[0]] + b[1..];
    }
  }

  lemma {:induction false} LessTransitive(a: Key, b: Key, c: Key)
    requires Less(a, b) && Less(b, c)
    ensures Less(a, c)
  {
    if a != [] && a[0] == b[0] == c[0] {
      LessTransitive(a[1..], b[1..], c[1..]);
    }
  }

  lemma {:induction false} LookupInsert(fs: seq<Field>, k: Key, v: Value, j: Key)
    requires Sorted(fs)
    ensures Lookup(Insert(fs, k, v), j) ==
            if Lookup(fs, j).Some? then Lookup(fs, j) else if j == k then Some(v) else None
    decreases |fs|
  {
    hide Less;
    if fs == [] {
      assert [Field(k, v)][1..] == [];
    } else if k == fs[0].key {
    } else if Less(k, fs[0].key) {
      assert ([Field(k, v)] + fs)[1..] == fs;
      AboveNotFound(fs, k);
    } else {
      SortedTail(fs);
      LookupInsert(fs[1..], k, v, j);
      var r := Insert(fs, k, v);
      assert r[0] == fs[0] && r[1..] == Insert(fs[1..], k, v);
    }
  }

  lemma SortedTail(fs: seq<Field>)
    requires fs != [] && Sorted(fs)
    ensures Sorted(fs[1..]) && forall f <- fs[1..] :: Less(fs[0].key, f.key)
  {
    hide Less;
  }

  /** A key below the first of a sorted list is not in it. */
  lemma {:induction false} AboveNotFound(fs: seq<Field>, k: Key)
    requires fs != [] && Sorted(fs) && Less(k, fs[0].key)
    ensures Lookup(fs, k) == None
    decreases |fs|
  {
    LessAsymmetric(k, fs[0].key);
    SortedTail(fs);
    if |fs| > 1 {
      assert fs[1] in fs[1..];
      LessTransitive(k, fs[0].key, fs[1].key);
      AboveNotFound(fs[1..], k);
    }
  }

  lemma {:induction false} InsertSorted(fs: seq<Field>, k: Key, v: Value)
    requires Sorted(fs)
    ensures Sorted(Insert(fs, k, v)) && forall f <- Insert(fs, k, v) :: f in fs || f.key == k
    decreases |fs|
  {
    hide Less;
    if fs == [] || k == fs[0].key {
    } else if Less(k, fs[0].key) {
      SortedTail(fs);
      forall f | f in fs ensures Less(k, f.key) {
        if f != fs[0] {
          assert fs == [fs[0]] + fs[1..];
          LessTransitive(k, fs[0].key, f.key);
        }
      }
      SortedCons(Field(k, v), fs);
    } else {
      LessTotal(k, fs[0].key);
      SortedTail(fs);
      InsertSorted(fs[1..], k, v);
      SortedCons(fs[0], Insert(fs[1..], k, v));
    }
  }

  lemma SortedCons(f: Field, fs: seq<Field>)
    requires Sorted(fs) && forall g <- fs :: Less(f.key, g.key)
    ensures Sorted([f] + fs)
  {
    hide Less;
    var r := [f] + fs;
    forall i, j | 0 <= i < j < |r| ensures Less(r[i].key, r[j].key) {
      assert r[j] == fs[j - 1] && r[j] in fs;
    }
  }

  /** The result is in key order, and every key has the value it had first. */
  lemma {:induction false} InsertAllIs(acc: seq<Field>, fs: seq<Field>, k: Key)
    requires Sorted(acc)
    ensures Sorted(InsertAll(acc, fs))
    ensures Lookup(InsertAll(acc, fs), k) ==
            if Lookup(acc, k).Some? then Lookup(acc, k)
            else if Lookup(fs, k).Some? then Some(Norm(Lookup(fs, k).value)) else None
    decreases |fs|
  {
    hide Insert, Sorted, Norm;
    if fs != [] {
      var v := Norm(fs[0].value);
      InsertSorted(acc, fs[0].key, v);
      LookupInsert(acc, fs[0].key, v, k);
      InsertAllIs(Insert(acc, fs[0].key, v), fs[1..], k);
    }
  }

  /**
   * An object or array written with its fields in any order: the reader returns a map in key order
   * in which every key has the first value that was written for it; the count of an array is ignored.
   */
  lemma ForeignObject(fs: seq<Field>, count: seq<byte>, rest: seq<byte>, k: Key) returns (r: seq<Field>)
    requires Readable(fs) && |count| == 4
    ensures Sorted(r) && (Lookup(r, k) == if Lookup(fs, k).Some? then Some(Norm(Lookup(fs, k).value)) else None)
    ensures var body := EncodeFields(fs) + ([0, 0] + [9]);
            && Load([3] + body + rest, 0, 0) == Loaded(Object(r), 1 + |body|, 0)
            && Load([8] + (count + body) + rest, 0, 0) == Loaded(Object(r), 5 + |body|, 0)
  {
    hide EncodeFields, LoadFields, Norm, InsertAll, Sorted;
    r := InsertAll([], fs);
    NothingSorted();
    InsertAllIs([], fs, k);
    var body := EncodeFields(fs) + ([0, 0] + [9]);
    var a, b := [3] + body + rest, [8] + (count + body) + rest;
    AtStart([3] + body, rest);
    AtSplit(a, 0, [3], body);
    LoadAnyFields(a, 1, [], fs);
    AtStart([8] + (count + body), rest);
    AtSplit(b, 0, [8], count + body);
    AtSplit(b, 1, count, body);
    LoadAnyFields(b, 5, [], fs);
  }

  lemma NothingSorted()
    ensures Sorted([])
  {
  }

  /**
   * Any byte but zero is true, except that 17 is taken for the switch to version 3 here as well;
   * markers the reader does not know are refused, the switch itself among them.
   */
  lemma OtherMarkers(x: byte, rest: seq<byte>)
    ensures x != 17 ==> Load([1, x] + rest, 0, 0) == Loaded(Boolean(x != 0), 2, 0)
    ensures Load([1, 17, x] + rest, 0, 0) == Loaded(Boolean(x != 0), 3, 3)
    ensures Load([6] + rest, 0, 0) == Loaded(Undefined, 1, 0)
    ensures x !in {0, 1, 2, 3, 5, 6, 8} ==> Load([x] + rest, 0, 0) == Failed
  {
    var a, b, c := [1, x] + rest, [x] + rest, [1, 17, x] + rest;
    assert a[0] == 1 && a[1] == x && b[0] == x && c[0] == 1 && c[1] == 17 && c[2] == x;
    hide LoadFields;
  }

  // ---------------------------------------------------------------- version 3

  /** A variable length number (section 1.3.1 of the AMF3 specification). */
  function U29(n: nat): seq<byte>
    requires n < 0x2000_0000
  {
    if n < 0x80 then [n]
    else if n < 0x4000 then [0x80 + n / 0x80, n % 0x80]
    else if n < 0x20_0000 then [0x80 + n / 0x4000, 0x80 + n / 0x80 % 0x80, n % 0x80]
    else [0x80 + n / 0x40_0000, 0x80 + n / 0x8000 % 0x80, 0x80 + n / 0x100 % 0x80, n % 0x100]
  }

  lemma Digits4(n: nat)
    requires n < 0x2000_0000
    ensures n == ((n / 0x40_0000 * 0x80 + n / 0x8000 % 0x80) * 0x80 + n / 0x100 % 0x80) * 0x100 + n % 0x100
    ensures n < 0x20_0000 ==> n == (n / 0x4000 * 0x80 + n / 0x80 % 0x80) * 0x80 + n % 0x80
  {
    Digits(n, 0x100, 0x80);
    Digits(n, 0x8000, 0x80);
    Digits(n, 0x80, 0x80);
  }

  lemma LowSeven(x: nat)
    requires x < 0x80
    ensures (0x80 + x) % 0x80 == x
  {
  }

  lemma Byte3(buf: seq<byte>, pos: nat)
    requires pos < |buf|
    ensures GetByte(buf, pos, 3) == Loaded(buf[pos], pos + 1, 3)
  {
  }

  /** One byte of the loop. */
  lemma U29Step(buf: seq<byte>, pos: nat, i: nat, acc: nat)
    requires pos < |buf| && i < 4 && acc < Amf3Limit(i)
    ensures i == 3 ==> LoadAmf3Integer(buf, pos, 3, i, acc) == Loaded(acc * 256 + buf[pos], pos + 1, 3)
    ensures i < 3 && buf[pos] < 128 ==> LoadAmf3Integer(buf, pos, 3, i, acc) == Loaded(acc * 128 + buf[pos], pos + 1, 3)
    ensures i < 3 && buf[pos] >= 128 ==>
              && acc * 128 + buf[pos] % 128 < Amf3Limit(i + 1)
              && LoadAmf3Integer(buf, pos, 3, i, acc) ==
                 LoadAmf3Integer(buf, pos + 1, 3, i + 1, acc * 128 + buf[pos] % 128)
  {
    hide GetByte;
    Byte3(buf, pos);
  }

  /** Three bytes, and four. */
  lemma U29Three(buf: seq<byte>, pos: nat, a: nat, b: nat, c: nat)
    requires a < 0x80 && b < 0x80 && c < 0x80 && At(buf, pos, [0x80 + a, 0x80 + b, c])
    ensures LoadAmf3Integer(buf, pos, 3, 0, 0) == Loaded((a * 0x80 + b) * 0x80 + c, pos + 3, 3)
  {
    hide LoadAmf3Integer, Amf3Limit;
    Limits();
    var u := buf[pos..pos + 3];
    assert u[0] == buf[pos] && u[1] == buf[pos + 1] && u[2] == buf[pos + 2];
    LowSeven(a);
    LowSeven(b);
    U29Step(buf, pos, 0, 0);
    U29Step(buf, pos + 1, 1, a);
    U29Step(buf, pos + 2, 2, a * 0x80 + b);
  }

  lemma U29Four(buf: seq<byte>, pos: nat, a: nat, b: nat, c: nat, d: nat)
    requires a < 0x80 && b < 0x80 && c < 0x80 && d < 0x100 && At(buf, pos, [0x80 + a, 0x80 + b, 0x80 + c, d])
    ensures LoadAmf3Integer(buf, pos, 3, 0, 0) == Loaded(((a * 0x80 + b) * 0x80 + c) * 0x100 + d, pos + 4, 3)
  {
    hide LoadAmf3Integer, Amf3Limit;
    Limits();
    var u := buf[pos..pos + 4];
    assert u[0] == buf[pos] && u[1] == buf[pos + 1] && u[2] == buf[pos + 2] && u[3] == buf[pos + 3];
    LowSeven(a);
    LowSeven(b);
    LowSeven(c);
    U29Step(buf, pos, 0, 0);
    U29Step(buf, pos + 1, 1, a);
    U29Step(buf, pos + 2, 2, a * 0x80 + b);
    U29Step(buf, pos + 3, 3, (a * 0x80 + b) * 0x80 + c);
  }

  lemma U29Two(buf: seq<byte>, pos: nat, a: nat, b: nat)
    requires a < 0x80 && b < 0x80 && At(buf, pos, [0x80 + a, b])
    ensures LoadAmf3Integer(buf, pos, 3, 0, 0) == Loaded(a * 0x80 + b, pos + 2, 3)
  {
    hide LoadAmf3Integer, Amf3Limit;
    Limits();
    var u := buf[pos..pos + 2];
    assert u[0] == buf[pos] && u[1] == buf[pos + 1];
    LowSeven(a);
    U29Step(buf, pos, 0, 0);
    U29Step(buf, pos + 1, 1, a);
  }

  /** The number loop reads every number back, in all four lengths. */
  lemma U29RoundTrip(buf: seq<byte>, pos: nat, n: nat)
    requires n < 0x2000_0000 && At(buf, pos, U29(n))
    ensures LoadAmf3Integer(buf, pos, 3, 0, 0) == Loaded(n, pos + |U29(n)|, 3)
  {
    hide LoadAmf3Integer, Amf3Limit, At;
    Digits4(n);
    if n < 0x80 {
      AtByte(buf, pos, n);
      Limits();
      U29Step(buf, pos, 0, 0);
    } else if n < 0x4000 {
      U29Two(buf, pos, n / 0x80, n % 0x80);
    } else if n < 0x20_0000 {
      U29Three(buf, pos, n / 0x4000, n / 0x80 % 0x80, n % 0x80);
    } else {
      U29Four(buf, pos, n / 0x40_0000, n / 0x8000 % 0x80, n / 0x100 % 0x80, n % 0x100);
    }
  }

  lemma Limits()
    ensures Amf3Limit(0) == 1 && Amf3Limit(1) == 0x80 && Amf3Limit(2) == 0x4000 && Amf3Limit(3) == 0x20_0000
  {
  }

  /**
   * A version 3 string is read with half its header as length, so that a reference, whose header is
   * even, is taken for a string of that many bytes.
   */
  lemma Amf3String(header: nat, s: seq<byte>, rest: seq<byte>)
    requires header < 0x2000_0000 && header / 2 == |s|
    ensures Load([6] + (U29(header) + s) + rest, 0, 3) == Loaded(String(s), 1 + |U29(header)| + |s|, 3)
    ensures LoadString([17, 6] + (U29(header) + s) + rest, 0, 0) == Loaded(s, 2 + |U29(header)| + |s|, 3)
  {
    hide LoadAmf3Integer, U29;
    var u := U29(header);
    var a, b := [6] + (u + s) + rest, [17, 6] + (u + s) + rest;
    AtStart([6] + (u + s), rest);
    AtSplit(a, 0, [6], u + s);
    AtSplit(a, 1, u, s);
    U29RoundTrip(a, 1, header);
    AtStart([17, 6] + (u + s), rest);
    AtSplit(b, 0, [17, 6], u + s);
    AtSplit(b, 2, u, s);
    U29RoundTrip(b, 2, header);
    assert a[0] == 6 && b[0] == 17 && b[1] == 6;
  }

  /**
   * The other values of version 3: the four constants are read; an integer is always 4, since its
   * marker is read as its value; numbers, arrays and objects always fail, since the loaders ask for
   * the markers of version 0; and so does every other marker.
   */
  lemma Amf3Values(buf: seq<byte>, pos: nat)
    requires pos < |buf| && buf[pos] != 6
    ensures Load(buf, pos, 3) ==
            if buf[pos] == 0 then Loaded(Undefined, pos + 1, 3)
            else if buf[pos] == 1 then Loaded(Null, pos + 1, 3)
            else if buf[pos] == 2 then Loaded(Boolean(false), pos + 1, 3)
            else if buf[pos] == 3 then Loaded(Boolean(true), pos + 1, 3)
            else if buf[pos] == 4 then Loaded(Integer(4), pos + 1, 3)
            else Failed
  {
    hide LoadFields, LoadAmf3Integer, Amf3Limit;
    Limits();
    U29Step(buf, pos, 0, 0);
  }
}
