/** The program stream writers and the reader as the loops the C code runs. */
module PsCodec {
  import opened Bytes
  import opened Pes
  import opened PsMux
  import opened PsDemux
  import opened PsRoundTrip

  const GB_PAYLOAD_SIZE := 65485

  /** The PES packets that carry `data` in pieces of n bytes. */
  function MediaBytes(id: byte, pts: nat, data: seq<byte>, n: nat): seq<byte>
    requires id >= 0xC0 && 0 < n && n + 13 <= 65535
  {
    StreamBytes(MediaPacks(id, pts, Pieces(data, n)))
  }

  lemma MediaStep(out: seq<byte>, id: byte, pts: nat, data: seq<byte>, n: nat)
    requires id >= 0xC0 && 0 < n && n + 13 <= 65535 && data != []
    ensures var k := Min(|data|, n);
            out + MediaBytes(id, pts, data, n) ==
              out + (MakeHeader(id, pts, k) + data[..k]) + MediaBytes(id, pts, data[k..], n)
  {
    hide MakeHeader;
    var k := Min(|data|, n);
    var ps := Pieces(data, n);
    assert ps[0] == data[..k] && ps[1..] == Pieces(data[k..], n);
    var packs := MediaPacks(id, pts, ps);
    assert packs[1..] == MediaPacks(id, pts, ps[1..]);
  }

  lemma MediaNone(id: byte, pts: nat, n: nat)
    requires id >= 0xC0 && 0 < n && n + 13 <= 65535
    ensures MediaBytes(id, pts, [], n) == []
  {
  }

  /** lts_ps_stream, for a destination that is large enough; -1 for an empty frame. */
  method PutFrame(frame: Frame, p: Program) returns (ret: int, out: seq<byte>)
    requires p.Valid() && frame.stream < |p.kinds|
    ensures frame.data == [] ==> ret == -1
    ensures frame.data != [] ==>
              ret == |out| && AllValid(FramePacks(frame, p)) && out == StreamBytes(FramePacks(frame, p))
  {
    hide MediaBytes, MakeHeader, StreamBytes, Pieces, MediaPacks, PackHeader, SystemHeader, StreamMapBytes;
    if frame.data == [] {
      return -1, [];
    }
    out := PackHeader(frame.pts, p.muxRate);
    if frame.key {
      out := out + SystemHeader(p);
      out := out + StreamMapBytes(p);
    }
    ghost var head := out;
    var n := PieceLength(frame.pesLength);
    MediaIds(p, frame.stream);
    var id := StreamId(p.kinds[frame.stream], 0, frame.stream);
    var pesNum := (|frame.data| + n - 1) / n;
    var i, pos := 0, 0;
    assert frame.data[0..] == frame.data;
    while i < pesNum
      invariant 0 <= i <= pesNum && 0 <= pos <= |frame.data|
      invariant pesNum - i == (|frame.data| - pos + n - 1) / n
      invariant out + MediaBytes(id, frame.pts, frame.data[pos..], n) == head + MediaBytes(id, frame.pts, frame.data, n)
    {
      var rest := frame.data[pos..];
      LastPiece(|rest|, n, pesNum - i);
      var esLen := if i == pesNum - 1 then |frame.data| - pos else n;
      MediaStep(out, id, frame.pts, rest, n);
      assert frame.data[pos..pos + esLen] == rest[..esLen] && frame.data[pos + esLen..] == rest[esLen..];
      out := out + (MakeHeader(id, frame.pts, esLen) + frame.data[pos..pos + esLen]);
      pos := pos + esLen;
      i := i + 1;
    }
    LastPiece(|frame.data| - pos, n, 0);
    assert frame.data[pos..] == [];
    MediaNone(id, frame.pts, n);
    assert out + [] == out;
    ret := |out|;
    FrameBytes(frame, p);
  }

  /** How many pieces are left tells whether the next one is the last. */
  lemma LastPiece(len: nat, n: nat, left: nat)
    requires n > 0 && left == (len + n - 1) / n
    ensures (left == 0 <==> len == 0) && (left == 1 <==> 1 <= len <= n)
    ensures len > n ==> (len - n + n - 1) / n == left - 1
    ensures 1 <= len <= n ==> (n - 1) / n == 0
  {
    if len > n {
      Ceiling(len, n);
      Quotient(n, n, 1, 0);
      var q := (len - n + n - 1) / n;
      assert q >= 1 by {
        assert len - 1 == n * q + (len - 1) % n;
      }
    } else if len >= 1 {
      Quotient(len + n - 1, n, 1, len - 1);
      Quotient(n - 1, n, 0, n - 1);
    } else {
      Quotient(n - 1, n, 0, n - 1);
    }
  }

  lemma FrameBytes(frame: Frame, p: Program)
    requires p.Valid() && frame.stream < |p.kinds|
    ensures AllValid(FramePacks(frame, p))
    ensures var id := StreamId(p.kinds[frame.stream], 0, frame.stream);
            id >= 0xC0 && StreamBytes(FramePacks(frame, p)) ==
              PackHeader(frame.pts, p.muxRate) + (if frame.key then SystemHeader(p) + StreamMapBytes(p) else [])
              + MediaBytes(id, frame.pts, frame.data, PieceLength(frame.pesLength))
  {
    hide PackHeader, SystemHeader, StreamMapBytes, StreamId, Pieces;
    MediaIds(p, frame.stream);
    FramePacksValid(frame, p);
    var id := StreamId(p.kinds[frame.stream], 0, frame.stream);
    var media := MediaPacks(id, frame.pts, Pieces(frame.data, PieceLength(frame.pesLength)));
    var a := PackHead(frame.pts, p.muxRate);
    OneBytes(a);
    if frame.key {
      var b, c := SysHead(p), StreamMap(p);
      OneBytes(b);
      OneBytes(c);
      StreamConcat([b], [c]);
      assert [b, c] == [b] + [c];
      StreamConcat([a], [b, c]);
      StreamConcat([a] + [b, c], media);
    } else {
      var none: seq<Pack> := [];
      assert [a] + none == [a];
      StreamConcat([a], media);
    }
  }

  lemma OneBytes(pack: Pack)
    requires pack.Valid()
    ensures AllValid([pack]) && StreamBytes([pack]) == pack.Bytes()
  {
    hide Pack.Bytes;
    var packs := [pack];
    assert packs[1..] == [];
    assert StreamBytes(packs) == pack.Bytes() + StreamBytes([]);
  }

  /**
   * The split loop of psmux_writeframe, with the bit-wise header writer: the same PES packets as
   * the byte-wise writer makes for pieces of 65485 bytes.
   */
  method GbWriteFrame(data: seq<byte>, timestamp: nat, video: bool) returns (out: seq<byte>)
    ensures out == MediaBytes(if video then 0xE0 else 0xC0, timestamp, data, 65485)
  {
    hide MediaBytes, MakeHeader, HeaderBytes, Pieces, MediaPacks;
    var id: byte := if video then 0xE0 else 0xC0;
    out := [];
    var pos, left := 0, |data|;
    assert data[0..] == data;
    assert out + MediaBytes(id, timestamp, data, GB_PAYLOAD_SIZE) == MediaBytes(id, timestamp, data, GB_PAYLOAD_SIZE);
    while left > 0
      invariant 0 <= pos <= |data| && left == |data| - pos
      invariant out + MediaBytes(id, timestamp, data[pos..], GB_PAYLOAD_SIZE) ==
                MediaBytes(id, timestamp, data, GB_PAYLOAD_SIZE)
    {
      var size := if left > GB_PAYLOAD_SIZE then GB_PAYLOAD_SIZE else left;
      ghost var rest := data[pos..];
      MediaStep(out, id, timestamp, rest, GB_PAYLOAD_SIZE);
      assert data[pos..pos + size] == rest[..size] && data[pos + size..] == rest[size..];
      var head := new byte[HEADER_LEN];
      GbMakePesHeader(head, id, size, timestamp, timestamp);
      out := out + (head[..] + data[pos..pos + size]);
      left := left - size;
      pos := pos + size;
    }
    assert data[pos..] == [];
    MediaNone(id, timestamp, GB_PAYLOAD_SIZE);
    assert out + [] == out;
  }

  /** TDemux */
  class Demuxer {
    var started: bool
    var programNum: nat
    var entries: seq<Entry>
    var report: Report

    const syncOnly: bool

    constructor (syncOnly: bool)
      ensures this.syncOnly == syncOnly && State() == EMPTY && report == NoPes
    {
      this.syncOnly := syncOnly;
      started, programNum, entries, report := false, 0, [], NoPes;
    }

    ghost function State(): Demux
      reads this
    {
      Demux(started, programNum, entries)
    }

    /** handle_map: the loop over the entries of a complete stream map. */
    method HandleMap(s: seq<byte>)
      modifies this`programNum, this`entries
      ensures State() == OnMap(old(State()), s)
    {
      hide PsDemux.MapEntries, PeekLength;
      var info := PeekLength(s, 8);
      var len := PeekLength(s, 10 + info);
      var base, pos: nat := 12 + info, 0;
      ghost var all := PsDemux.MapEntries(s, base, 0, len, MAX_STREAM_NUM);
      var found: seq<Entry> := [];
      programNum := 1;
      while pos < len
        invariant |found| <= MAX_STREAM_NUM && programNum == 1
        invariant found + PsDemux.MapEntries(s, base, pos, len, MAX_STREAM_NUM - |found|) == all
        decreases len - pos
      {
        var esInfo := PeekLength(s, base + pos + 2);
        MapStep(s, base, pos, len, MAX_STREAM_NUM - |found|, found);
        if esInfo < 0 || |found| >= MAX_STREAM_NUM {
          break;
        }
        var at := base + pos;
        pos := pos + 4 + esInfo;
        if Peek(s, at + 1) >= 0xC0 {
          found := found + [Entry(Peek(s, at + 1), Peek(s, at))];
        }
      }
      MapEnd(s, base, pos, len, MAX_STREAM_NUM - |found|, found);
      assert found == all;
      entries := found;
    }

    /** handle_pes: the search for the stream of a complete packet. */
    method HandlePes(s: seq<byte>)
      requires CommonSize(s) > 0 && report == NoPes
      modifies this`report
      ensures report == OnPes(State(), s)
    {
      hide HeadLen, ParsedPts, ParsedEsLen, CommonSize;
      var head := HeadLen(s);
      if head == 0 || programNum != 1 {
        return;
      }
      var i := 0;
      while i < |entries|
        invariant 0 <= i <= |entries| && report == NoPes
        invariant forall k :: 0 <= k < i ==> entries[k].id != s[3]
      {
        if entries[i].id == s[3] {
          var len := ParsedEsLen(s);
          HeadAndPayload(s);
          SizeInside(s);
          report := PesPack(i, ParsedPts(s, 0), len, if len < 0 then [] else s[head..head + len]);
          return;
        }
        i := i + 1;
      }
    }

    /** The switch over the type of the pack at the front of `s`. */
    method HandlePack(s: seq<byte>) returns (size: nat)
      requires |s| >= 5 && report == NoPes
      modifies this`programNum, this`entries, this`report
      ensures (State(), size, report) == OnPack(old(State()), s)
    {
      hide HeaderSize, CommonSize, OnMap, OnPes;
      if s[3] == 0xBA {
        return HeaderSize(s);
      }
      if s[3] == 0xB9 {
        return 4;
      }
      size := CommonSize(s);
      if size > 0 && s[3] != 0xBB {
        if s[3] == 0xBC {
          HandleMap(s);
        } else {
          HandlePes(s);
        }
      }
    }

    /** lts_ps_demux: scan for a start code and handle one pack. */
    method TakePack(buf: seq<byte>) returns (ret: int)
      modifies this
      ensures buf == [] ==> ret == -1 && State() == old(State())
      ensures buf != [] ==>
                (State(), ret, report) == if syncOnly then Sync(old(State()), buf) else Take(old(State()), buf)
    {
      hide OnPack;
      report := NoPes;
      if buf == [] {
        return -1;
      }
      var i, retLen := 0, 0;
      while i < |buf| - 4
        invariant 0 <= i && (i == 0 || i + 4 <= |buf|) && retLen == (if i == 0 then 0 else i - 1)
        invariant State() == old(State()) && report == NoPes
        invariant Scan(buf, i, started) == Scan(buf, 0, started)
      {
        retLen := i;
        if StopsAt(buf, i, started) {
          started := true;
          var n := 0;
          if syncOnly {
            n := PackSize(buf[i..]);
          } else {
            n := HandlePack(buf[i..]);
          }
          return i + n;
        }
        i := i + 1;
      }
      if !started {
        return -1;
      }
      ret := if i + retLen > |buf| then 0 else i + retLen;
    }
  }

  lemma SizeInside(s: seq<byte>)
    ensures CommonSize(s) <= |s|
  {
  }

  lemma MapStep(s: seq<byte>, base: int, pos: nat, len: int, room: nat, found: seq<Entry>)
    requires pos < len
    ensures var at, info, all := base + pos, PeekLength(s, base + pos + 2), PsDemux.MapEntries(s, base, pos, len, room);
            && (info < 0 || room == 0 ==> found + all == found)
            && (info >= 0 && room > 0 && Peek(s, at + 1) >= 0xC0 ==>
                  found + all == found + [Entry(Peek(s, at + 1), Peek(s, at))]
                                 + PsDemux.MapEntries(s, base, pos + 4 + info, len, room - 1))
            && (info >= 0 && room > 0 && Peek(s, at + 1) < 0xC0 ==>
                  found + all == found + PsDemux.MapEntries(s, base, pos + 4 + info, len, room))
  {
    hide PeekLength, Peek;
  }

  lemma MapEnd(s: seq<byte>, base: int, pos: nat, len: int, room: nat, found: seq<Entry>)
    requires pos >= len || PeekLength(s, base + pos + 2) < 0 || room == 0
    ensures found + PsDemux.MapEntries(s, base, pos, len, room) == found
  {
    hide PeekLength, Peek;
  }
}
