/**
 * What the program stream demultiplexer makes of packs another multiplexer has written: stuffed pack
 * headers, stream maps with descriptors, PES headers of any length.
 */
module PsForeign {
  import opened Bytes
  import opened Pes
  import opened PsDemux
  import opened TsForeign

  /** The scan stops at a start code at the front: of any pack once a pack header has been seen, of that before. */
  lemma AtFront(d: PsDemux.Demux, s: seq<byte>)
    requires |s| >= 5 && s[0] == 0 && s[1] == 0 && s[2] == 1 && s[3] >= 0xB9 && (d.started || s[3] == 0xBA)
    ensures var (d1, n, r) := OnPack(d.(started := true), s); Take(d, s) == (d1, n as int, r)
  {
    hide OnPack;
    assert s[0..] == s;
  }

  /** A pack header with up to seven stuffing bytes is skipped whole, and starts the reader. */
  lemma StuffedHeader(d: PsDemux.Demux, fields: seq<byte>, reserved: nat, stuffing: seq<byte>, rest: seq<byte>)
    requires |fields| == 9 && reserved < 32 && |stuffing| < 8
    ensures var s := [0, 0, 1, 0xBA] + fields + [reserved * 8 + |stuffing|] + stuffing + rest;
            Take(d, s) == (d.(started := true), 14 + |stuffing|, NoPes)
  {
    hide Take;
    var s := [0, 0, 1, 0xBA] + fields + [reserved * 8 + |stuffing|] + stuffing + rest;
    assert s[13] == reserved * 8 + |stuffing|;
    assert (reserved * 8 + |stuffing|) % 8 == |stuffing|;
    AtFront(d, s);
  }

  /** Any pack with a length field, at the front of the buffer. */
  predicate Sized(s: seq<byte>, id: byte, body: seq<byte>, rest: seq<byte>) {
    |body| < 0x1_0000 && s == [0, 0, 1, id] + Be16(|body|) + body + rest
  }

  lemma SizedRead(s: seq<byte>, id: byte, body: seq<byte>, rest: seq<byte>)
    requires Sized(s, id, body, rest)
    ensures |s| >= 6 && s[0] == 0 && s[1] == 0 && s[2] == 1 && s[3] == id
    ensures CommonSize(s) == 6 + |body| && s[6..6 + |body|] == body
    ensures forall i :: 0 <= i < |body| ==> s[6 + i] == body[i]
  {
    hide Be16, LoadBe16;
    assert s[4..6] == Be16(|body|);
    Be16RoundTrip(|body|);
  }

  /** A system header is skipped, whatever its size, and so is a pack of a stream that is not in the map. */
  lemma SkippedPack(d: PsDemux.Demux, s: seq<byte>, id: byte, body: seq<byte>, rest: seq<byte>)
    requires d.started && Sized(s, id, body, rest)
    requires id == 0xBB || (id > 0xBC && FindEntry(d.entries, id) == |d.entries|)
    ensures Take(d, s) == (d, 6 + |body|, NoPes)
  {
    hide Take, CommonSize, HeadLen, Sized;
    SizedRead(s, id, body, rest);
    AtFront(d, s);
  }

  // ---------------------------------------------------------------- stream maps

  /** A length is read as signed chars: as it was written exactly if its low byte and its value are below the sign. */
  lemma LengthReadIff(n: nat)
    requires n < 0x1_0000
    ensures SignedU16(n / 256, n % 256) == n <==> n % 256 < 128 && n < 0x8000
  {
  }

  predicate Legible(n: nat) { n % 256 < 128 && n < 0x8000 }

  lemma LengthAt(s: seq<byte>, k: nat, n: nat)
    requires k + 2 <= |s| && Legible(n) && s[k..k + 2] == Be16(n)
    ensures PeekLength(s, k) == n
  {
    var b := s[k..k + 2];
    assert b[0] == s[k] && b[1] == s[k + 1];
  }

  datatype Mapped = Mapped(kind: byte, id: byte, descriptors: seq<byte>)

  predicate AllLegible(entries: seq<Mapped>) {
    forall e <- entries :: Legible(|e.descriptors|)
  }

  function EntryBytes(e: Mapped): (b: seq<byte>)
    ensures |b| == 4 + |e.descriptors|
  {
    [e.kind, e.id] + Be16(|e.descriptors|) + e.descriptors
  }

  function MapLoop(entries: seq<Mapped>): seq<byte> {
    if entries == [] then [] else EntryBytes(entries[0]) + MapLoop(entries[1..])
  }

  /** The audio and video streams the reader has room for. */
  function KnownMedia(entries: seq<Mapped>, room: nat): seq<Entry>
    decreases |entries|
  {
    if entries == [] || room == 0 then []
    else if entries[0].id >= 0xC0 then [Entry(entries[0].id, entries[0].kind)] + KnownMedia(entries[1..], room - 1)
    else KnownMedia(entries[1..], room)
  }

  lemma {:induction false} ReadMapLoop(s: seq<byte>, base: nat, pos: nat, entries: seq<Mapped>, room: nat)
    requires AllLegible(entries) && base + pos + |MapLoop(entries)| <= |s|
    requires s[base + pos..base + pos + |MapLoop(entries)|] == MapLoop(entries)
    ensures MapEntries(s, base, pos, pos + |MapLoop(entries)|, room) == KnownMedia(entries, room)
    decreases |entries|
  {
    hide MapEntries, EntryBytes, MapLoop, Legible, AllLegible, Peek, PeekLength, KnownMedia;
    var len := pos + |MapLoop(entries)|;
    MapLoopStep(entries);
    KnownStep(entries, room);
    if entries == [] {
      LoopDone(s, base, pos, len, room);
    } else {
      var e, later := entries[0], entries[1..];
      LoopSplit(s, base + pos, EntryBytes(e), MapLoop(later));
      EntryRead(s, base + pos, e);
      LoopStep(s, base, pos, len, room, e);
      if room > 0 {
        ReadMapLoop(s, base, pos + |EntryBytes(e)|, later, if e.id >= 0xC0 then room - 1 else room);
      }
    }
  }

  lemma MapLoopStep(entries: seq<Mapped>)
    ensures MapLoop(entries) == if entries == [] then [] else EntryBytes(entries[0]) + MapLoop(entries[1..])
    ensures AllLegible(entries) && entries != [] ==> Legible(|entries[0].descriptors|) && AllLegible(entries[1..])
  {
    hide EntryBytes, Legible;
  }

  lemma KnownStep(entries: seq<Mapped>, room: nat)
    ensures KnownMedia(entries, room) ==
            if entries == [] || room == 0 then []
            else if entries[0].id >= 0xC0
            then [Entry(entries[0].id, entries[0].kind)] + KnownMedia(entries[1..], room - 1)
            else KnownMedia(entries[1..], room)
  {
  }

  lemma LoopDone(s: seq<byte>, base: nat, pos: nat, len: int, room: nat)
    requires pos >= len
    ensures MapEntries(s, base, pos, len, room) == []
  {
  }

  lemma EntryRead(s: seq<byte>, at: nat, e: Mapped)
    requires Legible(|e.descriptors|) && at + |EntryBytes(e)| <= |s| && s[at..at + |EntryBytes(e)|] == EntryBytes(e)
    ensures Peek(s, at) == e.kind && Peek(s, at + 1) == e.id && PeekLength(s, at + 2) == |e.descriptors|
  {
    hide Be16, Legible, PeekLength;
    var b := EntryBytes(e);
    var q := s[at..at + |b|];
    assert q[0] == s[at] && q[1] == s[at + 1];
    SliceOfSlice(s, at, at + |b|, 2, 2);
    assert b[2..4] == Be16(|e.descriptors|);
    LengthAt(s, at + 2, |e.descriptors|);
  }

  lemma LoopStep(s: seq<byte>, base: nat, pos: nat, len: int, room: nat, e: Mapped)
    requires pos < len
    requires Peek(s, base + pos) == e.kind && Peek(s, base + pos + 1) == e.id
    requires PeekLength(s, base + pos + 2) == |e.descriptors|
    ensures MapEntries(s, base, pos, len, room) ==
            if room == 0 then []
            else if e.id >= 0xC0
            then [Entry(e.id, e.kind)] + MapEntries(s, base, pos + 4 + |e.descriptors|, len, room - 1)
            else MapEntries(s, base, pos + 4 + |e.descriptors|, len, room)
  {
    hide Peek, PeekLength;
  }

  /** A map body: two bytes, program descriptors, the stream loop, a checksum. */
  function MapBody(version: seq<byte>, info: seq<byte>, entries: seq<Mapped>, crc: seq<byte>): seq<byte> {
    version + Be16(|info|) + info + Be16(|MapLoop(entries)|) + MapLoop(entries) + crc
  }

  /**
   * A stream map with any descriptors whose lengths the reader reads as they are: it learns id and
   * type of the audio and video streams in order, of the first four of them.
   */
  lemma ForeignMap(d: PsDemux.Demux, s: seq<byte>, version: seq<byte>, info: seq<byte>, entries: seq<Mapped>,
                   crc: seq<byte>, rest: seq<byte>)
    requires d.started && |version| == 2 && Sized(s, 0xBC, MapBody(version, info, entries, crc), rest)
    requires Legible(|info|) && Legible(|MapLoop(entries)|) && AllLegible(entries)
    ensures Take(d, s) ==
            (d.(programNum := 1, entries := KnownMedia(entries, 4)), 6 + |MapBody(version, info, entries, crc)|, NoPes)
  {
    hide Take, CommonSize, MapLoop, MapEntries, KnownMedia, PeekLength, OnPes, Sized, Be16, Legible;
    var body := MapBody(version, info, entries, crc);
    var loop := MapLoop(entries);
    SizedRead(s, 0xBC, body, rest);
    AtFront(d, s);
    MapParts(s, version, info, loop, crc);
    LengthAt(s, 8, |info|);
    LengthAt(s, 10 + |info|, |loop|);
    ReadMapLoop(s, 12 + |info|, 0, entries, 4);
  }

  lemma MapParts(s: seq<byte>, version: seq<byte>, info: seq<byte>, loop: seq<byte>, crc: seq<byte>)
    requires |version| == 2
    requires var body := version + Be16(|info|) + info + Be16(|loop|) + loop + crc;
             6 + |body| <= |s| && s[6..6 + |body|] == body
    ensures s[8..10] == Be16(|info|) && s[10 + |info|..12 + |info|] == Be16(|loop|)
    ensures s[12 + |info|..12 + |info| + |loop|] == loop
  {
    hide Be16;
    var a, b := Be16(|info|), Be16(|loop|);
    var body := version + a + info + b + loop + crc;
    SliceOfSlice(s, 6, 6 + |body|, 2, 2);
    SliceOfSlice(s, 6, 6 + |body|, 4 + |info|, 2);
    SliceOfSlice(s, 6, 6 + |body|, 6 + |info|, |loop|);
    assert body[2..4] == a && body[4 + |info|..6 + |info|] == b && body[6 + |info|..6 + |info| + |loop|] == loop;
  }

  // ---------------------------------------------------------------- PES packets

  /** A PES packet of a known stream, with any flags and a header of any length: time stamp and bytes. */
  lemma ForeignPesPack(d: PsDemux.Demux, s: seq<byte>, id: byte, flags: byte, presence: byte, extra: seq<byte>,
                       es: seq<byte>, rest: seq<byte>)
    requires d.started && d.programNum == 1 && id > 0xBC && FindEntry(d.entries, id) < |d.entries| && |extra| < 256
    requires Sized(s, id, [flags, presence, |extra|] + extra + es, rest)
    ensures Take(d, s) ==
            (d, 9 + |extra| + |es|,
             PesPack(FindEntry(d.entries, id), HeaderPts(presence, extra + es + rest, 0), |es|, es))
  {
    hide Take, CommonSize, HeadLen, ParsedPts, HeaderPts, Sized, FindEntry, ParsedEsLen;
    var body := [flags, presence, |extra|] + extra + es;
    SizedRead(s, id, body, rest);
    AtFront(d, s);
    PesFacts(s, id, flags, presence, extra, es, rest);
    HeadAndPayload(s);
  }

  lemma PesFacts(s: seq<byte>, id: byte, flags: byte, presence: byte, extra: seq<byte>, es: seq<byte>, rest: seq<byte>)
    requires |extra| < 256 && id >= 0x20 && Sized(s, id, [flags, presence, |extra|] + extra + es, rest)
    ensures |s| >= 9 + |extra| + |es| && s[9 + |extra|..9 + |extra| + |es|] == es
    ensures HeadLen(s) == 9 + |extra| && ParsedPts(s, 0) == HeaderPts(presence, extra + es + rest, 0)
  {
    hide HeadLen, ParsedPts, HeaderPts, Sized, Be16;
    PesParts(s, id, flags, presence, extra, es, rest);
    HeaderParsed(id, Be16(3 + |extra| + |es|), flags, presence, |extra|, extra + es + rest, 0);
  }

  lemma PesParts(s: seq<byte>, id: byte, flags: byte, presence: byte, extra: seq<byte>, es: seq<byte>, rest: seq<byte>)
    requires |extra| < 256 && Sized(s, id, [flags, presence, |extra|] + extra + es, rest)
    ensures var n := 3 + |extra| + |es|;
            && s == [0, 0, 1, id] + Be16(n) + [flags, presence, |extra|] + (extra + es + rest)
            && |s| >= 9 + |extra| + |es| && s[9 + |extra|..9 + |extra| + |es|] == es
  {
    hide Be16;
    var head, body := [0, 0, 1, id] + Be16(3 + |extra| + |es|), [flags, presence, |extra|] + extra + es;
    assert s == head + [flags, presence, |extra|] + (extra + es + rest);
    assert s == (head + [flags, presence, |extra|] + extra) + es + rest;
  }
}
