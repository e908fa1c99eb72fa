/** The encoder and decoder objects of the AMF code, proved against Amf0's functions. */
module AmfCodec {
  import opened Bytes
  import opened Amf0

  class Encoder {
    var buf: seq<byte>

    constructor ()
      ensures buf == []
    {
      buf := [];
    }

    method WriteKey(s: seq<byte>)
      modifies this
      ensures buf == old(buf) + EncodeString(s)
    {
      buf := buf + Be16(|s|);
      buf := buf + s;
    }

    method WriteString(s: seq<byte>)
      modifies this
      ensures buf == old(buf) + Encode(String(s))
    {
      buf := buf + [STRING];
      WriteKey(s);
    }

    method WriteNumber(bits: bits64)
      modifies this
      ensures buf == old(buf) + EncodeNumber(bits)
    {
      buf := buf + [NUMBER];
      buf := buf + Be32(bits / TWO32);
      buf := buf + Be32(bits % TWO32);
    }

    /** The loop over the entries of an object. */
    method WriteFields(fs: seq<Field>)
      modifies this
      ensures buf == old(buf) + EncodeFields(fs)
      decreases fs, 0
    {
      hide Encode, EncodeString;
      var i := 0;
      while i < |fs|
        invariant 0 <= i <= |fs|
        invariant buf + EncodeFields(fs[i..]) == old(buf) + EncodeFields(fs)
      {
        ghost var buf0 := buf;
        WriteKey(fs[i].key);
        Write(fs[i].value);
        FieldsCons(buf0, fs, i);
        i := i + 1;
      }
      assert fs[i..] == [];
    }

    method WriteObject(fs: seq<Field>)
      modifies this
      ensures buf == old(buf) + Encode(Object(fs))
      decreases fs, 1
    {
      hide EncodeFields;
      buf := buf + [OBJECT];
      WriteFields(fs);
      WriteKey([]);
      buf := buf + [OBJECT_END];
      assert EncodeString([]) == [0, 0];
    }

    method WriteEcma(fs: seq<Field>)
      modifies this
      ensures buf == old(buf) + EncodeEcma(fs)
    {
      hide EncodeFields;
      buf := buf + [ECMA_ARRAY];
      buf := buf + [0, 0, 0, 0];
      WriteFields(fs);
      WriteKey([]);
      buf := buf + [OBJECT_END];
      assert EncodeString([]) == [0, 0];
    }

    /** amf_write, by the type of the value. */
    method Write(v: Value)
      modifies this
      ensures buf == old(buf) + Encode(v)
      decreases v
    {
      match v {
        case Number(bits) => WriteNumber(bits);
        case Integer(i) => WriteNumber(DoubleBits(i));
        case Boolean(b) => buf := buf + [BOOLEAN, if b then 1 else 0];
        case String(s) => WriteString(s);
        case Object(fs) => WriteObject(fs);
        case Null => buf := buf + [NULL];
        case Undefined =>
      }
    }
  }

  lemma FieldsCons(buf: seq<byte>, fs: seq<Field>, i: nat)
    requires i < |fs|
    ensures buf + EncodeFields(fs[i..]) ==
            buf + EncodeString(fs[i].key) + Encode(fs[i].value) + EncodeFields(fs[i + 1..])
  {
    hide Encode, EncodeString;
    assert fs[i..][1..] == fs[i + 1..];
  }

  /** How a load method reports: its result and the state it leaves, or an exception. */
  predicate Reports<T(==)>(r: Loaded<T>, ok: bool, value: T, pos: nat, version: nat) {
    if ok then r == Loaded(value, pos, version) else r == Failed
  }

  /** One byte of a version 3 integer. */
  lemma Amf3Step(buf: seq<byte>, pos: nat, version: nat, i: nat, acc: nat)
    requires i < 4 && acc < Amf3Limit(i)
    ensures var g, r := GetByte(buf, pos, version), LoadAmf3Integer(buf, pos, version, i, acc);
            && (g.Failed? ==> r.Failed?)
            && (g.Loaded? && i == 3 ==> r == Loaded(acc * 256 + g.value, g.pos, g.version))
            && (g.Loaded? && i < 3 ==>
                  var next := acc * 128 + g.value % 128;
                  && next < Amf3Limit(i + 1)
                  && (g.value < 128 ==> r == Loaded(next, g.pos, g.version))
                  && (g.value >= 128 ==> r == LoadAmf3Integer(buf, g.pos, g.version, i + 1, next)))
  {
    hide GetByte;
  }

  class Decoder {
    const buf: seq<byte>
    var pos: nat
    var version: nat

    constructor (buf: seq<byte>, pos: nat)
      ensures this.buf == buf && this.pos == pos && version == 0
    {
      this.buf, this.pos, version := buf, pos, 0;
    }

    method Next() returns (ok: bool, b: byte)
      modifies this
      ensures Reports(old(GetByte(buf, pos, version)), ok, b, pos, version)
    {
      ok, b := false, 0;
      if version == 0 {
        if pos >= |buf| {
          return;
        }
        if buf[pos] == SWITCH_AMF3 {
          pos := pos + 1;
          version := 3;
        }
      }
      if pos >= |buf| {
        return;
      }
      ok, b := true, buf[pos];
      pos := pos + 1;
    }

    method ReadBytes(n: nat) returns (ok: bool, s: seq<byte>)
      modifies this
      ensures Reports(old(LoadBytes(buf, pos, version, n)), ok, s, pos, version)
    {
      if pos + n > |buf| {
        return false, [];
      }
      ok, s := true, buf[pos..pos + n];
      pos := pos + n;
    }

    method ReadKey() returns (ok: bool, s: seq<byte>)
      modifies this
      ensures Reports(old(LoadKey(buf, pos, version)), ok, s, pos, version)
    {
      if pos + 2 > |buf| {
        return false, [];
      }
      var n := LoadBe16(buf[pos..pos + 2]);
      pos := pos + 2;
      ok, s := ReadBytes(n);
    }

    /** The loop of load_amf3_integer. */
    method ReadAmf3Integer() returns (ok: bool, value: nat)
      modifies this
      ensures Reports(old(LoadAmf3Integer(buf, pos, version, 0, 0)), ok, value, pos, version)
      ensures ok ==> value < 0x2000_0000
    {
      hide GetByte, LoadAmf3Integer;
      value := 0;
      var i := 0;
      while i < 4
        invariant 0 <= i <= 3 && value < Amf3Limit(i)
        invariant LoadAmf3Integer(buf, pos, version, i, value) == old(LoadAmf3Integer(buf, pos, version, 0, 0))
        decreases 4 - i
      {
        Amf3Step(buf, pos, version, i, value);
        var got, b := Next();
        if !got {
          return false, 0;
        }
        if i == 3 {
          return true, value * 256 + b;
        }
        value := value * 128 + b % 128;
        if b < 128 {
          return true, value;
        }
        i := i + 1;
      }
      ok := false;
    }

    method ReadString() returns (ok: bool, s: seq<byte>)
      modifies this
      ensures Reports(old(LoadString(buf, pos, version)), ok, s, pos, version)
    {
      hide GetByte, LoadKey, LoadBytes, LoadAmf3Integer;
      var got, kind := Next();
      if !got {
        return false, [];
      }
      if version == 3 {
        if kind != AMF3_STRING {
          return false, [];
        }
        var some, n := ReadAmf3Integer();
        if !some {
          return false, [];
        }
        ok, s := ReadBytes(n / 2);
      } else {
        if kind != STRING {
          return false, [];
        }
        ok, s := ReadKey();
      }
    }

    method ReadNumber() returns (ok: bool, bits: bits64)
      modifies this
      ensures Reports(old(LoadNumber(buf, pos, version)), ok, bits, pos, version)
    {
      hide GetByte, LoadBe32;
      var got, kind := Next();
      if !got || kind != NUMBER || pos + 8 > |buf| {
        return false, 0;
      }
      ok, bits := true, LoadBe32(buf[pos..pos + 4]) * TWO32 + LoadBe32(buf[pos + 4..pos + 8]);
      pos := pos + 8;
    }

    method ReadBoolean() returns (ok: bool, b: bool)
      modifies this
      ensures Reports(old(LoadBoolean(buf, pos, version)), ok, b, pos, version)
    {
      hide GetByte;
      var got, kind := Next();
      if !got || kind != BOOLEAN {
        return false, false;
      }
      var some, x := Next();
      ok, b := some, x != 0;
    }

    /** The loop over keys and values of an object, and the end marker. */
    method ReadFields() returns (ok: bool, fs: seq<Field>)
      modifies this
      ensures Reports(old(LoadFields(buf, pos, version, [])), ok, fs, pos, version)
      decreases |buf| - pos, 2
    {
      hide LoadKey, GetByte, Insert;
      ok, fs := false, [];
      while true
        invariant LoadFields(buf, pos, version, fs) == old(LoadFields(buf, pos, version, []))
        invariant pos >= old(pos)
        decreases |buf| - pos
      {
        var some, key := ReadKey();
        if !some {
          return;
        }
        if key == [] {
          break;
        }
        var got, value := Read();
        if !got {
          return;
        }
        fs := Insert(fs, key, value);
      }
      var some, end := Next();
      ok := some && end == OBJECT_END;
    }

    method ReadObject() returns (ok: bool, fs: seq<Field>)
      modifies this
      ensures Reports(old(LoadObject(buf, pos, version)), ok, fs, pos, version)
      decreases |buf| - pos, 0
    {
      hide GetByte;
      var got, kind := Next();
      if !got || kind != OBJECT {
        return false, [];
      }
      ok, fs := ReadFields();
    }

    method ReadEcma() returns (ok: bool, fs: seq<Field>)
      modifies this
      ensures Reports(old(LoadEcma(buf, pos, version)), ok, fs, pos, version)
      decreases |buf| - pos, 0
    {
      hide GetByte;
      var got, kind := Next();
      if !got || kind != ECMA_ARRAY || pos + 4 > |buf| {
        return false, [];
      }
      pos := pos + 4;
      ok, fs := ReadFields();
    }

    /** amf_load */
    method Read() returns (ok: bool, v: Value)
      modifies this
      ensures Reports(old(Load(buf, pos, version)), ok, v, pos, version)
      decreases |buf| - pos, 1
    {
      hide LoadString, LoadNumber, LoadBoolean, LoadObject, LoadEcma, LoadAmf3Integer, LoadFields;
      ok, v := false, Undefined;
      if pos >= |buf| {
        return;
      }
      var kind := buf[pos];
      if kind == (if version == 3 then AMF3_STRING else STRING) {
        var some, s := ReadString();
        return some, String(s);
      } else if kind == (if version == 3 then 5 else NUMBER) {
        var some, n := ReadNumber();
        return some, Number(n);
      } else if kind == (if version == 3 then 10 else OBJECT) {
        var some, fs := ReadObject();
        return some, Object(fs);
      } else if kind == (if version == 3 then 9 else ECMA_ARRAY) {
        var some, fs := ReadEcma();
        return some, Object(fs);
      } else if version == 3 {
        if kind == AMF3_INTEGER {
          var some, n := ReadAmf3Integer();
          if some {
            return true, Integer(n);
          }
          return;
        } else if kind == AMF3_FALSE || kind == AMF3_TRUE {
          ok, v := true, Boolean(kind == AMF3_TRUE);
        } else if kind == AMF3_NULL {
          ok, v := true, Null;
        } else if kind == AMF3_UNDEFINED {
          ok, v := true, Undefined;
        }
      } else if kind == BOOLEAN {
        var some, b := ReadBoolean();
        return some, Boolean(b);
      } else if kind == NULL {
        ok, v := true, Null;
      } else if kind == UNDEFINED {
        ok, v := true, Undefined;
      }
      if ok {
        pos := pos + 1;
      }
    }
  }
}
