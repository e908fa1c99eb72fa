/**
 * The AMF0 writer and reader of the RTMP server (section 2 of the AMF0 specification). Doubles
 * are opaque 64-bit patterns. The reader is the whole of it, with its switch to version 3.
 */
module Amf0 {
  import opened Bytes
  import opened BitStrings

  const TWO52 := 0x10_0000_0000_0000
  const TWO63 := 0x8000_0000_0000_0000

  type bits64 = x: int | 0 <= x < 0x1_0000_0000_0000_0000
  type int32 = x: int | -0x8000_0000 <= x < 0x8000_0000

  const NUMBER: byte := 0
  const BOOLEAN: byte := 1
  const STRING: byte := 2
  const OBJECT: byte := 3
  const NULL: byte := 5
  const UNDEFINED: byte := 6
  const ECMA_ARRAY: byte := 8
  const OBJECT_END: byte := 9
  const SWITCH_AMF3: byte := 17

  const AMF3_UNDEFINED: byte := 0
  const AMF3_NULL: byte := 1
  const AMF3_FALSE: byte := 2
  const AMF3_TRUE: byte := 3
  const AMF3_INTEGER: byte := 4
  const AMF3_STRING: byte := 6

  type Key = seq<byte>

  /** An object is the content of a std::map: its entries in key order. */
  datatype Value =
    | Number(bits: bits64)
    | Integer(i: int32)
    | Boolean(b: bool)
    | String(s: seq<byte>)
    | Object(fields: seq<Field>)
    | Null
    | Undefined

  datatype Field = Field(key: Key, value: Value)

  // ---------------------------------------------------------------- the order of std::map

  predicate Less(a: Key, b: Key) {
    b != [] && (a == [] || a[0] < b[0] || (a[0] == b[0] && Less(a[1..], b[1..])))
  }

  lemma {:induction false} LessAsymmetric(a: Key, b: Key)
    requires Less(a, b)
    ensures !Less(b, a) && a != b
  {
    if a != [] && a[0] == b[0] {
      LessAsymmetric(a[1..], b[1..]);
    }
  }

  predicate Sorted(fs: seq<Field>) {
    forall i, j :: 0 <= i < j < |fs| ==> Less(fs[i].key, fs[j].key)
  }

  /** std::map::insert: an existing key keeps its value. */
  function Insert(fs: seq<Field>, k: Key, v: Value): seq<Field> {
    if fs == [] then [Field(k, v)]
    else if k == fs[0].key then fs
    else if Less(k, fs[0].key) then [Field(k, v)] + fs
    else [fs[0]] + Insert(fs[1..], k, v)
  }

  lemma {:induction false} InsertLast(fs: seq<Field>, k: Key, v: Value)
    requires forall f <- fs :: Less(f.key, k)
    ensures Insert(fs, k, v) == fs + [Field(k, v)]
  {
    if fs != [] {
      LessAsymmetric(fs[0].key, k);
      InsertLast(fs[1..], k, v);
      assert fs == [fs[0]] + fs[1..];
    }
  }

  // ---------------------------------------------------------------- writer

  /** The double nearest to (here: equal to) a 32-bit integer, as the bit pattern of IEEE 754. */
  function DoubleBits(i: int32): bits64 {
    if i == 0 then 0
    else
      var a := Magnitude(i);
      Powers();
      var e := Log2(a, 32);
      MantissaExact(a, e);
      Pattern(i < 0, e, Scaled(a, Pow2(e)))
  }

  function Magnitude(i: int32): (a: nat)
    ensures a <= 0x8000_0000 && (i != 0 ==> a > 0)
  {
    if i < 0 then -(i as int) else i
  }

  function Pattern(negative: bool, e: nat, m: nat): bits64
    requires e < 1024 && m < TWO52
  {
    (if negative then TWO63 else 0) + (1023 + e) * TWO52 + m
  }

  /** The mantissa of a number between the power of two `p` and the next one. */
  function Scaled(a: nat, p: nat): int
    requires 0 < p <= a
  {
    (a - p) * (TWO52 / p)
  }

  /** The value of a normal double is (2^52 + mantissa) * 2^(exponent - 1023) / 2^52, with its sign. */
  function Exponent(bits: bits64): nat { bits / TWO52 % 2048 }

  function Mantissa(bits: bits64): nat { bits % TWO52 }

  predicate Denotes(bits: bits64, i: int32) {
    if i == 0 then bits == 0
    else
      && (bits >= TWO63 <==> i < 0)
      && Exponent(bits) >= 1023
      && (TWO52 + Mantissa(bits)) * Pow2(Exponent(bits) - 1023) == Magnitude(i) * TWO52
  }

  lemma ScaleExact(e: nat)
    requires e <= 52
    ensures Pow2(e) * (TWO52 / Pow2(e)) == TWO52
  {
    hide Pow2;
    Powers();
    Pow2Add(e, 52 - e);
    Quotient(TWO52, Pow2(e), Pow2(52 - e), 0);
  }

  lemma ScaledValue(a: nat, p: nat, q: nat)
    requires p <= a && p * q == TWO52
    ensures (TWO52 + (a - p) * q) * p == a * TWO52
  {
    var b := a - p;
    assert (p + b) * q == p * q + b * q;
    assert a * q * p == a * (p * q);
  }

  lemma MantissaExact(a: nat, e: nat)
    requires e <= 52 && Pow2(e) <= a < 2 * Pow2(e)
    ensures var m := Scaled(a, Pow2(e)); 0 <= m < TWO52 && (TWO52 + m) * Pow2(e) == a * TWO52
  {
    hide Pow2;
    var p, q := Pow2(e), TWO52 / Pow2(e);
    ScaleExact(e);
    ScaledValue(a, p, q);
    StrictlyBelow(a - p, p, q);
  }

  lemma PatternFields(negative: bool, e: nat, m: nat)
    requires e < 1024 && m < TWO52
    ensures var bits := Pattern(negative, e, m);
            (bits >= TWO63 <==> negative) && Exponent(bits) == 1023 + e && Mantissa(bits) == m
  {
    Quotient(Pattern(negative, e, m), TWO52, (if negative then 2048 else 0) + 1023 + e, m);
  }

  /** The number written for an integer is that integer. */
  lemma DoubleDenotes(i: int32)
    ensures Denotes(DoubleBits(i), i)
  {
    hide Pow2, Pattern, Scaled, Exponent, Mantissa;
    if i != 0 {
      var a := Magnitude(i);
      Powers();
      var e := Log2(a, 32);
      MantissaExact(a, e);
      PatternFields(i < 0, e, Scaled(a, Pow2(e)));
    }
  }

  lemma StrictlyBelow(x: nat, p: nat, q: nat)
    requires x < p && q > 0
    ensures 0 <= x * q < p * q
  {
  }

  /** Different integers are written as different numbers. */
  lemma DoubleInjective(i: int32, j: int32)
    requires DoubleBits(i) == DoubleBits(j)
    ensures i == j
  {
    DoubleDenotes(i);
    DoubleDenotes(j);
    hide DoubleBits, Pow2;
  }

  function EncodeString(s: seq<byte>): seq<byte> { Be16(|s|) + s }

  function EncodeNumber(bits: bits64): seq<byte> { [NUMBER] + (Be32(bits / TWO32) + Be32(bits % TWO32)) }

  /** amf_write; an undefined value writes nothing, an integer is written as a number. */
  function Encode(v: Value): seq<byte> {
    match v
    case Number(bits) => EncodeNumber(bits)
    case Integer(i) => EncodeNumber(DoubleBits(i))
    case Boolean(b) => [BOOLEAN, if b then 1 else 0]
    case String(s) => [STRING] + EncodeString(s)
    case Object(fs) => [OBJECT] + (EncodeFields(fs) + ([0, 0] + [OBJECT_END]))
    case Null => [NULL]
    case Undefined => []
  }

  function EncodeFields(fs: seq<Field>): seq<byte> {
    if fs == [] then []
    else EncodeField(fs[0]) + EncodeFields(fs[1..])
  }

  function EncodeField(f: Field): seq<byte> { EncodeString(f.key) + Encode(f.value) }

  /** amf_write_ecma */
  function EncodeEcma(fs: seq<Field>): seq<byte> {
    [ECMA_ARRAY] + ([0, 0, 0, 0] + (EncodeFields(fs) + ([0, 0] + [OBJECT_END])))
  }

  // ---------------------------------------------------------------- reader

  /** What a load function leaves: its result, the new position and version; or an exception. */
  datatype Loaded<T> = Loaded(value: T, pos: nat, version: nat) | Failed

  function GetByte(buf: seq<byte>, pos: nat, version: nat): (r: Loaded<byte>)
    ensures r.Loaded? ==> pos < r.pos <= |buf|
  {
    if version == 0 && pos >= |buf| then Failed
    else if version == 0 && buf[pos] == SWITCH_AMF3 then
      if pos + 1 >= |buf| then Failed else Loaded(buf[pos + 1], pos + 2, 3)
    else if pos >= |buf| then Failed
    else Loaded(buf[pos], pos + 1, version)
  }

  function LoadBytes(buf: seq<byte>, pos: nat, version: nat, n: nat): (r: Loaded<seq<byte>>)
    ensures r.Loaded? ==> r.pos == pos + n <= |buf|
  {
    if pos + n > |buf| then Failed else Loaded(buf[pos..pos + n], pos + n, version)
  }

  /** A length of two bytes and that many bytes. */
  function LoadKey(buf: seq<byte>, pos: nat, version: nat): (r: Loaded<seq<byte>>)
    ensures r.Loaded? ==> pos + 2 <= r.pos <= |buf|
  {
    if pos + 2 > |buf| then Failed else LoadBytes(buf, pos + 2, version, LoadBe16(buf[pos..pos + 2]))
  }

  /** Seven bits a byte: a bound on the value of the first `i` bytes. */
  function Amf3Limit(i: nat): nat {
    if i == 0 then 1 else if i == 1 then 0x80 else if i == 2 then 0x4000 else 0x20_0000
  }

  function LoadAmf3Integer(buf: seq<byte>, pos: nat, version: nat, i: nat, acc: nat): (r: Loaded<nat>)
    requires i < 4 && acc < Amf3Limit(i)
    ensures r.Loaded? ==> pos < r.pos <= |buf| && r.value < 0x2000_0000
    decreases 4 - i
  {
    var g := GetByte(buf, pos, version);
    if g.Failed? then Failed
    else if i == 3 then Loaded(acc * 256 + g.value, g.pos, g.version)
    else
      var next := acc * 128 + g.value % 128;
      if g.value < 128 then Loaded(next, g.pos, g.version)
      else LoadAmf3Integer(buf, g.pos, g.version, i + 1, next)
  }

  function LoadString(buf: seq<byte>, pos: nat, version: nat): (r: Loaded<seq<byte>>)
    ensures r.Loaded? ==> pos < r.pos <= |buf|
  {
    var g := GetByte(buf, pos, version);
    if g.Failed? then Failed
    else if g.version == 3 then
      if g.value != AMF3_STRING then Failed
      else
        var n := LoadAmf3Integer(buf, g.pos, 3, 0, 0);
        if n.Failed? then Failed else LoadBytes(buf, n.pos, n.version, n.value / 2)
    else if g.value != STRING then Failed
    else LoadKey(buf, g.pos, g.version)
  }

  function LoadNumber(buf: seq<byte>, pos: nat, version: nat): (r: Loaded<bits64>)
    ensures r.Loaded? ==> pos < r.pos <= |buf|
  {
    var g := GetByte(buf, pos, version);
    if g.Failed? || g.value != NUMBER || g.pos + 8 > |buf| then Failed
    else Loaded(LoadBe32(buf[g.pos..g.pos + 4]) * TWO32 + LoadBe32(buf[g.pos + 4..g.pos + 8]), g.pos + 8, g.version)
  }

  function LoadBoolean(buf: seq<byte>, pos: nat, version: nat): (r: Loaded<bool>)
    ensures r.Loaded? ==> pos < r.pos <= |buf|
  {
    var g := GetByte(buf, pos, version);
    if g.Failed? || g.value != BOOLEAN then Failed
    else
      var b := GetByte(buf, g.pos, g.version);
      if b.Failed? then Failed else Loaded(b.value != 0, b.pos, b.version)
  }

  /** The loop over keys and values, and the end marker. */
  function LoadFields(buf: seq<byte>, pos: nat, version: nat, acc: seq<Field>): (r: Loaded<seq<Field>>)
    ensures r.Loaded? ==> pos < r.pos <= |buf|
    decreases |buf| - pos, 2
  {
    var k := LoadKey(buf, pos, version);
    if k.Failed? then Failed
    else if k.value == [] then
      var g := GetByte(buf, k.pos, k.version);
      if g.Failed? || g.value != OBJECT_END then Failed else Loaded(acc, g.pos, g.version)
    else
      var v := Load(buf, k.pos, k.version);
      if v.Failed? then Failed else LoadFields(buf, v.pos, v.version, Insert(acc, k.value, v.value))
  }

  function LoadObject(buf: seq<byte>, pos: nat, version: nat): (r: Loaded<seq<Field>>)
    ensures r.Loaded? ==> pos < r.pos <= |buf|
    decreases |buf| - pos, 0
  {
    var g := GetByte(buf, pos, version);
    if g.Failed? || g.value != OBJECT then Failed else LoadFields(buf, g.pos, g.version, [])
  }

  function LoadEcma(buf: seq<byte>, pos: nat, version: nat): (r: Loaded<seq<Field>>)
    ensures r.Loaded? ==> pos < r.pos <= |buf|
    decreases |buf| - pos, 0
  {
    var g := GetByte(buf, pos, version);
    if g.Failed? || g.value != ECMA_ARRAY || g.pos + 4 > |buf| then Failed
    else LoadFields(buf, g.pos + 4, g.version, [])
  }

  function Map<A, B>(r: Loaded<A>, f: A -> B): Loaded<B> {
    match r
    case Loaded(value, pos, version) => Loaded(f(value), pos, version)
    case Failed => Failed
  }

  /** amf_load: dispatch on the next byte, which is only looked at. */
  function Load(buf: seq<byte>, pos: nat, version: nat): (r: Loaded<Value>)
    ensures r.Loaded? ==> pos < r.pos <= |buf|
    decreases |buf| - pos, 1
  {
    if pos >= |buf| then Failed
    else if version == 3 then
      match buf[pos]
      case 6 => Map(LoadString(buf, pos, version), s => String(s))
      case 5 => Map(LoadNumber(buf, pos, version), n => Number(n))
      case 4 =>
        var n := LoadAmf3Integer(buf, pos, version, 0, 0);
        if n.Failed? then Failed else Loaded(Integer(n.value), n.pos, n.version)
      case 2 => Loaded(Boolean(false), pos + 1, version)
      case 3 => Loaded(Boolean(true), pos + 1, version)
      case 10 => Map(LoadObject(buf, pos, version), fs => Object(fs))
      case 9 => Map(LoadEcma(buf, pos, version), fs => Object(fs))
      case 1 => Loaded(Null, pos + 1, version)
      case 0 => Loaded(Undefined, pos + 1, version)
      case _ => Failed
    else
      match buf[pos]
      case 2 => Map(LoadString(buf, pos, version), s => String(s))
      case 0 => Map(LoadNumber(buf, pos, version), n => Number(n))
      case 1 => Map(LoadBoolean(buf, pos, version), b => Boolean(b))
      case 3 => Map(LoadObject(buf, pos, version), fs => Object(fs))
      case 8 => Map(LoadEcma(buf, pos, version), fs => Object(fs))
      case 5 => Loaded(Null, pos + 1, version)
      case 6 => Loaded(Undefined, pos + 1, version)
      case _ => Failed
  }

  // ---------------------------------------------------------------- round trip

  /** The values the writer has a form for: short strings, non-empty keys, nothing undefined. */
  predicate Writable(v: Value) {
    match v
    case String(s) => |s| < 0x1_0000
    case Object(fs) => WritableFields(fs)
    case Undefined => false
    case _ => true
  }

  predicate WritableFields(fs: seq<Field>) {
    Sorted(fs) && forall f <- fs :: 0 < |f.key| < 0x1_0000 && Writable(f.value)
  }

  /** What comes back for a value: integers have become numbers. */
  function Norm(v: Value): Value {
    match v
    case Integer(i) => Number(DoubleBits(i))
    case Object(fs) => Object(NormFields(fs))
    case _ => v
  }

  function NormFields(fs: seq<Field>): seq<Field> {
    if fs == [] then [] else [NormField(fs[0])] + NormFields(fs[1..])
  }

  function NormField(f: Field): Field { Field(f.key, Norm(f.value)) }

  lemma NormFieldsNil(acc: seq<Field>)
    ensures acc + NormFields([]) == acc && NormFields([]) == []
  {
  }

  lemma NormFieldsCons(acc: seq<Field>, fs: seq<Field>)
    requires fs != []
    ensures acc + [Field(fs[0].key, Norm(fs[0].value))] + NormFields(fs[1..]) == acc + NormFields(fs)
  {
    hide Norm;
  }

  /** The bytes `s` stand in the buffer at `pos`. */
  predicate At(buf: seq<byte>, pos: nat, s: seq<byte>) {
    pos + |s| <= |buf| && buf[pos..pos + |s|] == s
  }

  lemma AtSplit(buf: seq<byte>, pos: nat, a: seq<byte>, b: seq<byte>)
    requires At(buf, pos, a + b)
    ensures At(buf, pos, a) && At(buf, pos + |a|, b)
  {
    assert a == (a + b)[..|a|] && b == (a + b)[|a|..];
    assert buf[pos..pos + |a|] == buf[pos..pos + |a + b|][..|a|];
    assert buf[pos + |a|..pos + |a| + |b|] == buf[pos..pos + |a + b|][|a|..];
  }

  lemma AtByte(buf: seq<byte>, pos: nat, x: byte)
    requires At(buf, pos, [x])
    ensures pos < |buf| && buf[pos] == x
  {
    assert buf[pos..pos + 1][0] == buf[pos];
  }

  lemma LoadKeyAt(buf: seq<byte>, pos: nat, s: seq<byte>)
    requires At(buf, pos, EncodeString(s)) && |s| < 0x1_0000
    ensures LoadKey(buf, pos, 0) == Loaded(s, pos + |EncodeString(s)|, 0)
  {
    AtSplit(buf, pos, Be16(|s|), s);
    Be16RoundTrip(|s|);
  }

  lemma LoadNumberAt(buf: seq<byte>, pos: nat, bits: bits64)
    requires At(buf, pos, EncodeNumber(bits))
    ensures buf[pos] == NUMBER && LoadNumber(buf, pos, 0) == Loaded(bits, pos + 9, 0)
  {
    hide Be32, LoadBe32;
    var hi, lo := Be32(bits / TWO32), Be32(bits % TWO32);
    AtSplit(buf, pos, [NUMBER], hi + lo);
    AtByte(buf, pos, NUMBER);
    AtSplit(buf, pos + 1, hi, lo);
    Be32RoundTrip(bits / TWO32);
    Be32RoundTrip(bits % TWO32);
  }

  lemma LoadBooleanAt(buf: seq<byte>, pos: nat, b: bool)
    requires At(buf, pos, Encode(Boolean(b)))
    ensures buf[pos] == BOOLEAN && LoadBoolean(buf, pos, 0) == Loaded(b, pos + 2, 0)
  {
    var x: byte := if b then 1 else 0;
    assert Encode(Boolean(b)) == [BOOLEAN] + [x];
    AtSplit(buf, pos, [BOOLEAN], [x]);
    AtByte(buf, pos, BOOLEAN);
    AtByte(buf, pos + 1, x);
  }

  lemma LoadStringAt(buf: seq<byte>, pos: nat, s: seq<byte>)
    requires At(buf, pos, Encode(String(s))) && |s| < 0x1_0000
    ensures buf[pos] == STRING && LoadString(buf, pos, 0) == Loaded(s, pos + |Encode(String(s))|, 0)
  {
    AtSplit(buf, pos, [STRING], EncodeString(s));
    AtByte(buf, pos, STRING);
    LoadKeyAt(buf, pos + 1, s);
  }

  lemma {:induction false} LoadFieldsAt(buf: seq<byte>, pos: nat, acc: seq<Field>, fs: seq<Field>)
    requires At(buf, pos, EncodeFields(fs) + ([0, 0] + [OBJECT_END]))
    requires WritableFields(fs) && forall a <- acc, f <- fs :: Less(a.key, f.key)
    ensures LoadFields(buf, pos, 0, acc) == Loaded(acc + NormFields(fs), pos + |EncodeFields(fs)| + 3, 0)
    decreases fs, -1
  {
    hide LoadFields, LoadKey, Load, Insert, EncodeString, Less, At, Norm, NormFields, Encode;
    var end := [0, 0] + [OBJECT_END];
    if fs == [] {
      assert EncodeFields(fs) + end == end;
      LoadFieldsEnd(buf, pos, acc);
      NormFieldsNil(acc);
    } else {
      var f, rest := fs[0], fs[1..];
      assert EncodeFields(fs) + end == EncodeField(f) + (EncodeFields(rest) + end);
      AtSplit(buf, pos, EncodeField(f), EncodeFields(rest) + end);
      AtSplit(buf, pos, EncodeString(f.key), Encode(f.value));
      LoadKeyAt(buf, pos, f.key);
      LoadAt(buf, pos + |EncodeString(f.key)|, f.value);
      InsertLast(acc, f.key, Norm(f.value));
      LoadFieldsStep(buf, pos, acc, f.key, Norm(f.value), pos + |EncodeString(f.key)|, pos + |EncodeField(f)|);
      var acc1 := acc + [Field(f.key, Norm(f.value))];
      AccBelow(acc, f, rest, fs);
      LoadFieldsAt(buf, pos + |EncodeField(f)|, acc1, rest);
      NormFieldsCons(acc, fs);
    }
  }

  lemma LoadFieldsStep(buf: seq<byte>, pos: nat, acc: seq<Field>, key: Key, v: Value, p: nat, q: nat)
    requires LoadKey(buf, pos, 0) == Loaded(key, p, 0) && key != [] && Load(buf, p, 0) == Loaded(v, q, 0)
    ensures LoadFields(buf, pos, 0, acc) == LoadFields(buf, q, 0, Insert(acc, key, v))
  {
    hide LoadKey, Load, Insert;
  }

  lemma LoadFieldsEnd(buf: seq<byte>, pos: nat, acc: seq<Field>)
    requires At(buf, pos, [0, 0] + [OBJECT_END])
    ensures LoadFields(buf, pos, 0, acc) == Loaded(acc, pos + 3, 0)
  {
    AtSplit(buf, pos, [0, 0], [OBJECT_END]);
    assert EncodeString([]) == [0, 0];
    LoadKeyAt(buf, pos, []);
    AtByte(buf, pos + 2, OBJECT_END);
  }

  lemma AccBelow(acc: seq<Field>, f: Field, rest: seq<Field>, fs: seq<Field>)
    requires fs == [f] + rest && Sorted(fs) && forall a <- acc, g <- fs :: Less(a.key, g.key)
    ensures Sorted(rest) && forall a <- acc + [Field(f.key, Norm(f.value))], g <- rest :: Less(a.key, g.key)
  {
    hide Less;
    forall g | g in rest ensures Less(f.key, g.key) {
      var j :| 0 <= j < |rest| && rest[j] == g;
      assert fs[0] == f && fs[j + 1] == g;
    }
    assert forall i :: 0 <= i < |rest| ==> fs[i + 1] == rest[i];
  }

  /**
   * Wherever the encoding of a writable value stands in a buffer, the reader in version 0
   * returns the value, moves exactly past the encoding and stays in version 0.
   */
  lemma {:induction false} LoadAt(buf: seq<byte>, pos: nat, v: Value)
    requires At(buf, pos, Encode(v)) && Writable(v)
    ensures Load(buf, pos, 0) == Loaded(Norm(v), pos + |Encode(v)|, 0)
    decreases v
  {
    match v {
      case Number(bits) => LoadNumberAt(buf, pos, bits);
      case Integer(i) => LoadNumberAt(buf, pos, DoubleBits(i));
      case Boolean(b) => LoadBooleanAt(buf, pos, b);
      case String(s) => LoadStringAt(buf, pos, s);
      case Null => AtByte(buf, pos, NULL);
      case Object(fs) => LoadObjectAt(buf, pos, fs);
    }
  }

  lemma LoadObjectAt(buf: seq<byte>, pos: nat, fs: seq<Field>)
    requires At(buf, pos, Encode(Object(fs))) && WritableFields(fs)
    ensures buf[pos] == OBJECT
    ensures LoadObject(buf, pos, 0) == Loaded(NormFields(fs), pos + |Encode(Object(fs))|, 0)
    decreases fs, 0
  {
    hide WritableFields, NormFields, EncodeFields, LoadFields;
    var body := EncodeFields(fs) + ([0, 0] + [OBJECT_END]);
    AtSplit(buf, pos, [OBJECT], body);
    AtByte(buf, pos, OBJECT);
    LoadFieldsAt(buf, pos + 1, [], fs);
    assert [] + NormFields(fs) == NormFields(fs);
  }

  lemma LoadEcmaAt(buf: seq<byte>, pos: nat, fs: seq<Field>)
    requires At(buf, pos, EncodeEcma(fs)) && WritableFields(fs)
    ensures LoadEcma(buf, pos, 0) == Loaded(NormFields(fs), pos + |EncodeEcma(fs)|, 0)
  {
    hide At, WritableFields, NormFields, EncodeFields, LoadFields;
    var body := EncodeFields(fs) + ([0, 0] + [OBJECT_END]);
    AtSplit(buf, pos, [ECMA_ARRAY], [0, 0, 0, 0] + body);
    AtByte(buf, pos, ECMA_ARRAY);
    AtSplit(buf, pos + 1, [0, 0, 0, 0], body);
    LoadFieldsAt(buf, pos + 5, [], fs);
    assert [] + NormFields(fs) == NormFields(fs);
  }

  lemma AtStart(s: seq<byte>, rest: seq<byte>)
    ensures At(s + rest, 0, s)
  {
  }

  /** Reading back what was written, whatever follows it. */
  lemma RoundTrip(v: Value, rest: seq<byte>)
    requires Writable(v)
    ensures Load(Encode(v) + rest, 0, 0) == Loaded(Norm(v), |Encode(v)|, 0)
  {
    AtStart(Encode(v), rest);
    LoadAt(Encode(v) + rest, 0, v);
  }

  lemma EcmaRoundTrip(fs: seq<Field>, rest: seq<byte>)
    requires WritableFields(fs)
    ensures LoadEcma(EncodeEcma(fs) + rest, 0, 0) == Loaded(NormFields(fs), |EncodeEcma(fs)|, 0)
  {
    AtStart(EncodeEcma(fs), rest);
    LoadEcmaAt(EncodeEcma(fs) + rest, 0, fs);
  }

  /** A message body is a list of values; it can be cut in only one way. */
  lemma UniquelyDecodable(v: Value, a: seq<byte>, w: Value, b: seq<byte>)
    requires Writable(v) && Writable(w) && Encode(v) + a == Encode(w) + b
    ensures Norm(v) == Norm(w) && a == b
  {
    RoundTrip(v, a);
    RoundTrip(w, b);
    hide Load, Encode, Norm;
    assert a == (Encode(v) + a)[|Encode(v)|..] && b == (Encode(w) + b)[|Encode(w)|..];
  }

  /** The 16-bit length decides: longer strings come back cut. */
  lemma StringRoundTripIff(s: seq<byte>, rest: seq<byte>)
    ensures Load(Encode(String(s)) + rest, 0, 0) == Loaded(String(s), |Encode(String(s))|, 0) <==> |s| < 0x1_0000
  {
    if |s| < 0x1_0000 {
      RoundTrip(String(s), rest);
    } else {
      var buf := Encode(String(s)) + rest;
      AtStart(Encode(String(s)), rest);
      AtSplit(buf, 0, [STRING], EncodeString(s));
      AtByte(buf, 0, STRING);
      AtSplit(buf, 1, Be16(|s|), s);
      Be16RoundTrip(|s|);
      assert LoadString(buf, 0, 0).pos == 3 + |s| % 0x1_0000;
    }
  }

  lemma EncodingTag(v: Value)
    requires Writable(v)
    ensures Encode(v) != [] && Encode(v)[0] in {NUMBER, BOOLEAN, STRING, OBJECT, NULL}
  {
  }

  /** The shortest string that is lost. */
  lemma LongStringLost(rest: seq<byte>)
    ensures var v := String(seq(0x1_0000, _ => 0)); Load(Encode(v) + rest, 0, 0) != Loaded(v, |Encode(v)|, 0)
  {
    hide Load, Encode;
    StringRoundTripIff(seq(0x1_0000, _ => 0), rest);
  }

  /** The empty key is the end marker: an object that has one can not be read back. */
  lemma ObjectRoundTripIff(fs: seq<Field>, rest: seq<byte>)
    requires Sorted(fs) && forall f <- fs :: |f.key| < 0x1_0000 && Writable(f.value)
    ensures Load(Encode(Object(fs)) + rest, 0, 0) == Loaded(Norm(Object(fs)), |Encode(Object(fs))|, 0)
            <==> forall f <- fs :: f.key != []
  {
    if forall f <- fs :: f.key != [] {
      RoundTrip(Object(fs), rest);
    } else {
      var i :| 0 <= i < |fs| && fs[i].key == [];
      assert i != 0 ==> Less(fs[0].key, fs[i].key);
      EmptyKeyFails(fs, rest);
    }
  }

  /** The smallest object that is lost. */
  lemma EmptyKeyLost(rest: seq<byte>)
    ensures Load(Encode(Object([Field([], Null)])) + rest, 0, 0) == Failed
  {
    EmptyKeyFails([Field([], Null)], rest);
  }

  lemma EmptyKeyFails(fs: seq<Field>, rest: seq<byte>)
    requires fs != [] && fs[0].key == [] && Writable(fs[0].value)
    ensures Load(Encode(Object(fs)) + rest, 0, 0) == Failed
  {
    hide EncodeFields, Encode, LoadFields;
    var buf := Encode(Object(fs)) + rest;
    var tag, tail := EmptyKeyBytes(fs);
    assert buf == [OBJECT] + ([0, 0] + [tag]) + (tail + rest);
    AtStart([OBJECT] + ([0, 0] + [tag]), tail + rest);
    AtSplit(buf, 0, [OBJECT], [0, 0] + [tag]);
    AtByte(buf, 0, OBJECT);
    EmptyKeyStops(buf, 1, tag);
  }

  lemma EmptyKeyBytes(fs: seq<Field>) returns (tag: byte, tail: seq<byte>)
    requires fs != [] && fs[0].key == [] && Writable(fs[0].value)
    ensures tag in {NUMBER, BOOLEAN, STRING, OBJECT, NULL}
    ensures Encode(Object(fs)) == [OBJECT] + ([0, 0] + [tag]) + tail
  {
    var v := fs[0].value;
    hide Writable, EncodeFields, Encode;
    EncodingTag(v);
    EmptyKeyFields(fs);
    ObjectBytes(fs);
    var code, later := Encode(v), EncodeFields(fs[1..]);
    tag := code[0];
    tail := code[1..] + (later + ([0, 0] + [OBJECT_END]));
    Regroup(code, later, [0, 0] + [OBJECT_END]);
  }

  lemma ObjectBytes(fs: seq<Field>)
    ensures Encode(Object(fs)) == [OBJECT] + (EncodeFields(fs) + ([0, 0] + [OBJECT_END]))
  {
    hide EncodeFields;
  }

  lemma Regroup(code: seq<byte>, later: seq<byte>, end: seq<byte>)
    requires code != []
    ensures [OBJECT] + ([0, 0] + code + later + end) == [OBJECT] + ([0, 0] + [code[0]]) + (code[1..] + (later + end))
  {
  }

  lemma EmptyKeyFields(fs: seq<Field>)
    requires fs != [] && fs[0].key == []
    ensures EncodeFields(fs) == [0, 0] + Encode(fs[0].value) + EncodeFields(fs[1..])
  {
    hide Encode;
    assert EncodeString([]) == [0, 0] by { assert Be16(0) == [0, 0]; }
  }

  lemma EmptyKeyStops(buf: seq<byte>, pos: nat, tag: byte)
    requires At(buf, pos, [0, 0] + [tag]) && tag != OBJECT_END && tag != SWITCH_AMF3
    ensures LoadFields(buf, pos, 0, []) == Failed
  {
    assert EncodeString([]) == [0, 0];
    AtSplit(buf, pos, [0, 0], [tag]);
    LoadKeyAt(buf, pos, []);
    AtByte(buf, pos + 2, tag);
  }
}
