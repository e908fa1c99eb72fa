/** Demultiplexing a program stream that arrives in arbitrary pieces. */
module PsRoundTrip {
  import opened Bytes
  import opened Pes
  import opened PsMux
  import opened PsDemux

  /** What a complete pack does to the demultiplexer. */
  function Effect(d: Demux, pack: Pack): (Demux, Report)
    requires pack.Valid()
  {
    match pack
    case PackHead(_, _) => (d.(started := true), NoPes)
    case SysHead(_) => (d.(started := true), NoPes)
    case StreamMap(p) => (Demux(true, 1, EntriesFrom(p.kinds, 0)), NoPes)
    case Media(id, pts, es) =>
      var n := FindEntry(d.entries, id);
      (d.(started := true),
       if d.programNum == 1 && n < |d.entries| then PesPack(n, pts % TWO33 / 90, |es|, es) else NoPes)
  }

  function EntriesFrom(kinds: seq<byte>, from: nat): (r: seq<Entry>)
    requires from <= |kinds|
    ensures |r| == |kinds| - from
    decreases |kinds| - from
  {
    if from == |kinds| then [] else [Entry(StreamId(kinds[from], 0, from), kinds[from])] + EntriesFrom(kinds, from + 1)
  }

  // ---------------------------------------------------------------- one pack

  /** Every pack starts with a start code that the scan accepts. */
  lemma StartCode(pack: Pack)
    requires pack.Valid()
    ensures var s := pack.Bytes();
            && s[0] == 0 && s[1] == 0 && s[2] == 1 && s[3] >= 0xBA
            && (s[3] == 0xBA <==> pack.PackHead?) && (s[3] == 0xBB <==> pack.SysHead?)
            && (s[3] == 0xBC <==> pack.StreamMap?)
  {
    hide Stamp, Scr, PsMux.MapEntries;
  }

  /** The size a pack declares in its bytes 4 and 5. */
  lemma DeclaredSize(pack: Pack)
    requires pack.Valid() && !pack.PackHead?
    ensures var s := pack.Bytes(); |s| == 6 + LoadBe16(s[4..6])
  {
    hide SystemHeader, StreamMapBytes, MakeHeader, LoadBe16, Be16;
    match pack {
      case SysHead(p) =>
        SystemLength(p);
        Be16RoundTrip(12);
      case StreamMap(p) =>
        MapLength(p);
        Be16RoundTrip(10 + 4 * |p.kinds|);
      case Media(id, pts, es) =>
        MediaLength(id, pts, es);
        Be16RoundTrip(PacketLength(|es|));
    }
  }

  lemma SystemLength(p: Program)
    requires p.Valid()
    ensures SystemHeader(p)[4..6] == Be16(12)
  {
    hide Be16;
  }

  lemma MapLength(p: Program)
    requires p.Valid()
    ensures StreamMapBytes(p)[4..6] == Be16(10 + 4 * |p.kinds|)
  {
    hide Be16, PsMux.MapEntries;
  }

  lemma MediaLength(id: byte, pts: nat, es: seq<byte>)
    ensures (MakeHeader(id, pts, |es|) + es)[4..6] == Be16(PacketLength(|es|))
  {
    hide Be16, Stamp;
  }

  /** The size computed from the front of a buffer: the pack's size if it is all there, else 0. */
  lemma SizeOfPrefix(pack: Pack, buf: seq<byte>)
    requires pack.Valid() && |buf| >= 5 && (buf <= pack.Bytes() || pack.Bytes() <= buf)
    ensures (if pack.PackHead? then HeaderSize(buf) else CommonSize(buf)) ==
            if |buf| < |pack.Bytes()| then 0 else |pack.Bytes()|
  {
    var s := pack.Bytes();
    if pack.PackHead? {
      assert s[13] == 0xF8;
      if |buf| >= 14 {
        assert buf[13] == s[13];
      }
    } else {
      DeclaredSize(pack);
      hide Pack.Bytes;
      if |buf| >= 6 {
        assert buf[4..6] == s[4..6];
      }
    }
  }

  lemma ReadMedia(d: Demux, id: byte, pts: nat, es: seq<byte>, rest: seq<byte>)
    requires id >= 0xC0 && |es| + 13 <= 65535
    requires CommonSize(MakeHeader(id, pts, |es|) + es + rest) > 0
    ensures OnPes(d, MakeHeader(id, pts, |es|) + es + rest) ==
            var n := FindEntry(d.entries, id);
            if d.programNum == 1 && n < |d.entries| then PesPack(n, pts % TWO33 / 90, |es|, es) else NoPes
  {
    hide MakeHeader, HeadLen, ParsedPts, ParsedEsLen, CommonSize;
    ParseMade(id, pts, |es|, es + rest, 0);
    var s := MakeHeader(id, pts, |es|) + es + rest;
    assert s == MakeHeader(id, pts, |es|) + (es + rest);
    assert s[HEADER_LEN..HEADER_LEN + |es|] == es;
  }

  lemma {:induction false} ReadEntries(s: seq<byte>, kinds: seq<byte>, from: nat)
    requires Program(kinds, 0).Valid() && from <= |kinds| && 12 + 4 * |kinds| <= |s|
    requires s[12..12 + 4 * |kinds|] == PsMux.MapEntries(kinds, 0)
    ensures PsDemux.MapEntries(s, 12, 4 * from, 4 * |kinds|, MAX_STREAM_NUM - from) == EntriesFrom(kinds, from)
    decreases |kinds| - from
  {
    hide PsMux.MapEntries, PsDemux.MapEntries, StreamId;
    if from == |kinds| {
      NoEntry(s, 4 * from, MAX_STREAM_NUM - from);
    } else {
      EntryInMap(s, kinds, from);
      MediaIds(Program(kinds, 0), from);
      OneEntry(s, 4 * from, 4 * |kinds|, MAX_STREAM_NUM - from, kinds[from], StreamId(kinds[from], 0, from));
      ReadEntries(s, kinds, from + 1);
    }
  }

  lemma NoEntry(s: seq<byte>, pos: nat, room: nat)
    ensures PsDemux.MapEntries(s, 12, pos, pos, room) == []
  {
  }

  lemma OneEntry(s: seq<byte>, pos: nat, len: nat, room: nat, kind: byte, id: byte)
    requires pos < len && 12 + pos + 4 <= |s| && room > 0 && id >= 0xC0
    requires s[12 + pos] == kind && s[13 + pos] == id && s[14 + pos] == 0 && s[15 + pos] == 0
    ensures PsDemux.MapEntries(s, 12, pos, len, room) ==
            [Entry(id, kind)] + PsDemux.MapEntries(s, 12, pos + 4, len, room - 1)
  {
    assert PeekLength(s, 14 + pos) == 0;
  }

  lemma {:induction false} EntryBytes(kinds: seq<byte>, from: nat, i: nat)
    requires from <= i < |kinds|
    ensures PsMux.MapEntries(kinds, from)[4 * (i - from)..4 * (i - from) + 4] == MapEntry(kinds[i], i)
    decreases i - from
  {
    hide MapEntry;
    var all := PsMux.MapEntries(kinds, from);
    if i > from {
      EntryBytes(kinds, from + 1, i);
      assert all[4..] == PsMux.MapEntries(kinds, from + 1);
      assert all[4..][4 * (i - from - 1)..4 * (i - from - 1) + 4] == all[4 * (i - from)..4 * (i - from) + 4];
    }
  }

  lemma EntryInMap(s: seq<byte>, kinds: seq<byte>, i: nat)
    requires i < |kinds| && 12 + 4 * |kinds| <= |s| && s[12..12 + 4 * |kinds|] == PsMux.MapEntries(kinds, 0)
    ensures var here := 12 + 4 * i;
            s[here] == kinds[i] && s[here + 1] == StreamId(kinds[i], 0, i) && s[here + 2] == 0 && s[here + 3] == 0
  {
    hide PsMux.MapEntries, StreamId;
    EntryBytes(kinds, 0, i);
    EntryAtOffset(s, PsMux.MapEntries(kinds, 0), 4 * i, MapEntry(kinds[i], i));
  }

  lemma EntryAtOffset(s: seq<byte>, all: seq<byte>, at: nat, e: seq<byte>)
    requires 12 + |all| <= |s| && s[12..12 + |all|] == all && at + 4 <= |all| && all[at..at + 4] == e
    ensures s[12 + at] == e[0] && s[13 + at] == e[1] && s[14 + at] == e[2] && s[15 + at] == e[3]
  {
    FourAre(all, at, e);
    FourMore(s, 12, all, at);
  }

  lemma FourMore(s: seq<byte>, k: nat, all: seq<byte>, at: nat)
    requires k + |all| <= |s| && s[k..k + |all|] == all && at + 4 <= |all|
    ensures all[at] == s[k + at] && all[at + 1] == s[k + at + 1]
    ensures all[at + 2] == s[k + at + 2] && all[at + 3] == s[k + at + 3]
  {
  }

  lemma FourAre(s: seq<byte>, k: nat, e: seq<byte>)
    requires k + 4 <= |s| && s[k..k + 4] == e
    ensures s[k] == e[0] && s[k + 1] == e[1] && s[k + 2] == e[2] && s[k + 3] == e[3]
  {
  }

  lemma ReadMap(d: Demux, p: Program, rest: seq<byte>)
    requires p.Valid()
    ensures OnMap(d, StreamMapBytes(p) + rest) == d.(programNum := 1, entries := EntriesFrom(p.kinds, 0))
  {
    hide PsMux.MapEntries, PsDemux.MapEntries, EntriesFrom, SignedU16, StreamMapBytes;
    var s, n := StreamMapBytes(p) + rest, |p.kinds|;
    MapLengths(p);
    assert s[8] == 0 && s[9] == 0 && s[10] == 0 && s[11] == 4 * n;
    assert s[12..12 + 4 * n] == StreamMapBytes(p)[12..12 + 4 * n];
    SmallLengths(n);
    ReadEntries(s, p.kinds, 0);
  }

  lemma MapLengths(p: Program)
    requires p.Valid()
    ensures var s := StreamMapBytes(p);
            && s[8] == 0 && s[9] == 0 && s[10] == 0 && s[11] == 4 * |p.kinds|
            && s[12..12 + 4 * |p.kinds|] == PsMux.MapEntries(p.kinds, 0)
  {
    hide PsMux.MapEntries;
    assert Be16(4 * |p.kinds|) == [0, 4 * |p.kinds|];
  }

  lemma SmallLengths(n: nat)
    requires n <= 4
    ensures SignedU16(0, 0) == 0 && SignedU16(0, 4 * n) == 4 * n
  {
  }

  /** What the switch over the pack type does with a complete pack. */
  lemma PackHandled(d: Demux, pack: Pack, rest: seq<byte>)
    requires pack.Valid() && d.started
    ensures var (d1, r) := Effect(d, pack); OnPack(d, pack.Bytes() + rest) == (d1, |pack.Bytes()|, r)
  {
    hide OnMap, OnPes, HeaderSize, CommonSize, MakeHeader, StreamMapBytes, PackHeader, SystemHeader;
    StartCode(pack);
    SizeOfPrefix(pack, pack.Bytes() + rest);
    match pack {
      case StreamMap(p) => ReadMap(d, p, rest);
      case Media(id, pts, es) => ReadMedia(d, id, pts, es, rest);
      case _ =>
    }
  }

  /** A complete pack at the front of the buffer is taken off whole, with its effect. */
  lemma TakePack(d: Demux, pack: Pack, rest: seq<byte>)
    requires pack.Valid() && (d.started || pack.PackHead?)
    ensures var (d1, r) := Effect(d, pack);
            Take(d, pack.Bytes() + rest) == (d1, |pack.Bytes()|, r)
  {
    hide Pack.Bytes, OnPack;
    var s := pack.Bytes();
    var buf := s + rest;
    StartCode(pack);
    PackHandled(d.(started := true), pack, rest);
    assert buf[0..] == buf;
    assert Scan(buf, 0, d.started) == 0;
  }

  /** A pack behind garbage that does not look like a start code is found, at the start of a stream and later. */
  lemma TakeBehindGarbage(d: Demux, garbage: seq<byte>, pack: Pack, rest: seq<byte>)
    requires pack.Valid() && (d.started || pack.PackHead?)
    requires var buf := garbage + (pack.Bytes() + rest);
             forall j :: 0 <= j < |garbage| ==> !StopsAt(buf, j, d.started)
    ensures var (d1, r) := Effect(d, pack);
            Take(d, garbage + (pack.Bytes() + rest)) == (d1, |garbage| + |pack.Bytes()|, r)
  {
    hide Pack.Bytes, OnPack, Scan;
    var s, k := pack.Bytes() + rest, |garbage|;
    var buf := garbage + s;
    StartCode(pack);
    assert buf[k] == s[0] && buf[k + 1] == s[1] && buf[k + 2] == s[2] && buf[k + 3] == s[3];
    ScanSkipsIff(buf, 0, k, d.started);
    PackHandled(d.(started := true), pack, rest);
    assert buf[k..] == s;
  }

  /** A pack that is not complete yet: nothing is consumed, reported or learned. */
  lemma TakePart(d: Demux, pack: Pack, k: nat)
    requires pack.Valid() && (d.started || pack.PackHead?) && 0 < k < |pack.Bytes()|
    ensures var (d1, ret, r) := Take(d, pack.Bytes()[..k]);
            ret <= 0 && r == NoPes && d1 == d.(started := d.started || k >= 5)
  {
    var s := pack.Bytes();
    var buf := s[..k];
    StartCode(pack);
    if k >= 5 {
      SizeOfPrefix(pack, buf);
    }
    hide Pack.Bytes, OnMap, OnPes, HeaderSize, CommonSize;
    assert buf[0..] == buf;
    assert Scan(buf, 0, d.started) == 0;
  }

  // ---------------------------------------------------------------- many packs, any segmentation

  predicate AllValid(packs: seq<Pack>) {
    forall p <- packs :: p.Valid()
  }

  function StreamBytes(packs: seq<Pack>): seq<byte>
    requires AllValid(packs)
  {
    if packs == [] then []
    else assert packs[0] in packs; packs[0].Bytes() + StreamBytes(packs[1..])
  }

  function EffectAll(d: Demux, packs: seq<Pack>): (Demux, seq<Report>)
    requires AllValid(packs)
    decreases |packs|
  {
    if packs == [] then (d, [])
    else
      assert packs[0] in packs;
      var (d1, r) := Effect(d, packs[0]);
      var (d2, rs) := EffectAll(d1, packs[1..]);
      (d2, [r] + rs)
  }

  /** The demultiplexer is in the stream, or the stream is about to start with a pack header. */
  predicate InStep(d: Demux, packs: seq<Pack>) {
    d.started || (packs != [] && packs[0].PackHead?)
  }

  /** The demultiplexer states agree on all that is learned from packs. */
  predicate Agree(a: Demux, b: Demux) { a.programNum == b.programNum && a.entries == b.entries }

  lemma EffectAgrees(a: Demux, b: Demux, pack: Pack)
    requires pack.Valid() && Agree(a, b)
    ensures Effect(a, pack) == Effect(b, pack)
  {
  }

  lemma {:induction false} EffectAllAgrees(a: Demux, b: Demux, packs: seq<Pack>)
    requires AllValid(packs) && Agree(a, b)
    ensures EffectAll(a, packs).1 == EffectAll(b, packs).1
    ensures Agree(EffectAll(a, packs).0, EffectAll(b, packs).0)
    decreases |packs|
  {
    if packs != [] {
      assert packs[0] in packs;
      EffectAgrees(a, b, packs[0]);
    }
  }

  /** `part` is a beginning, but not all, of the first pack. */
  predicate Partial(packs: seq<Pack>, part: seq<byte>)
    requires AllValid(packs)
  {
    part == [] || (packs != [] && assert packs[0] in packs; |part| < |packs[0].Bytes()| && part <= packs[0].Bytes())
  }

  /** Complete packs followed by the beginning of another one: all the complete ones come off. */
  lemma {:induction false} DrainPacks(d: Demux, packs: seq<Pack>, m: nat, part: seq<byte>)
    requires m <= |packs| && AllValid(packs) && InStep(d, packs) && Partial(packs[m..], part)
    ensures var (d1, left, rs) := Drain(d, StreamBytes(packs[..m]) + part);
            && left == part && rs == EffectAll(d, packs[..m]).1
            && Agree(d1, EffectAll(d, packs[..m]).0) && (m > 0 || d.started ==> d1.started)
    decreases m
  {
    hide Take, Effect, Pack.Bytes;
    if m == 0 {
      assert StreamBytes(packs[..0]) + part == part;
      if part != [] {
        var pack := packs[0];
        assert pack in packs && part == pack.Bytes()[..|part|];
        TakePart(d, pack, |part|);
      }
    } else {
      var pack, front := packs[0], packs[..m];
      assert pack in packs && front[0] == pack && front[1..] == packs[1..][..m - 1]
             && packs[1..][m - 1..] == packs[m..];
      var rest := StreamBytes(packs[1..][..m - 1]) + part;
      assert StreamBytes(front) + part == pack.Bytes() + rest;
      TakePack(d, pack, rest);
      var d1 := Effect(d, pack).0;
      EffectStarts(d, pack);
      assert (pack.Bytes() + rest)[|pack.Bytes()|..] == rest;
      DrainPacks(d1, packs[1..], m - 1, part);
    }
  }

  lemma EffectStarts(d: Demux, pack: Pack)
    requires pack.Valid()
    ensures Effect(d, pack).0.started
  {
  }

  lemma {:induction false} StreamConcat(a: seq<Pack>, b: seq<Pack>)
    requires AllValid(a) && AllValid(b)
    ensures AllValid(a + b) && StreamBytes(a + b) == StreamBytes(a) + StreamBytes(b)
    decreases |a|
  {
    hide Pack.Bytes;
    if a == [] {
      assert a + b == b;
    } else {
      assert (a + b)[1..] == a[1..] + b;
      StreamConcat(a[1..], b);
    }
  }

  lemma {:induction false} EffectConcat(d: Demux, a: seq<Pack>, b: seq<Pack>)
    requires AllValid(a) && AllValid(b)
    ensures AllValid(a + b)
    ensures var (d1, ra) := EffectAll(d, a);
            var (d2, rb) := EffectAll(d1, b);
            EffectAll(d, a + b) == (d2, ra + rb)
    decreases |a|
  {
    hide Effect;
    if a == [] {
      assert a + b == b;
      assert [] + EffectAll(d, b).1 == EffectAll(d, b).1;
    } else {
      assert (a + b)[1..] == a[1..] + b && a[0] in a && (a + b)[0] == a[0];
      var (d1, r) := Effect(d, a[0]);
      EffectConcat(d1, a[1..], b);
      var (d2, ra) := EffectAll(d1, a[1..]);
      assert [r] + ra + EffectAll(d2, b).1 == [r] + (ra + EffectAll(d2, b).1);
    }
  }

  /** Where a prefix of the stream ends: behind m packs and inside the next one. */
  lemma {:induction false} CutAt(packs: seq<Pack>, n: nat) returns (m: nat, part: seq<byte>)
    requires AllValid(packs) && n <= |StreamBytes(packs)|
    ensures m <= |packs| && AllValid(packs[m..]) && AllValid(packs[..m]) && Partial(packs[m..], part)
    ensures StreamBytes(packs)[..n] == StreamBytes(packs[..m]) + part
    decreases |packs|
  {
    hide Pack.Bytes;
    if packs == [] {
      m, part := 0, [];
    } else {
      var first := packs[0];
      assert first in packs;
      var s := StreamBytes(packs);
      if n < |first.Bytes()| {
        m, part := 0, first.Bytes()[..n];
        assert packs[0..] == packs && StreamBytes(packs[..0]) == [];
        assert s[..n] == part;
      } else {
        var k := n - |first.Bytes()|;
        var m1;
        m1, part := CutAt(packs[1..], k);
        m := m1 + 1;
        assert packs[..m][0] == first && packs[..m][1..] == packs[1..][..m1] && packs[m..] == packs[1..][m1..];
        assert s[..n] == first.Bytes() + StreamBytes(packs[1..])[..k];
      }
    }
  }

  /**
   * Delivering a stream in arbitrary pieces: the packs that come out, with their effects, are
   * those of the stream, in order, and nothing is left over.
   */
  lemma {:induction false} AnySegmentation(d: Demux, packs: seq<Pack>, left: seq<byte>, segments: seq<seq<byte>>)
    requires AllValid(packs) && (packs == [] || InStep(d, packs)) && Partial(packs, left)
    requires left + Flatten(segments) == StreamBytes(packs)
    ensures var (d1, left1, rs) := DrainAll(d, left, segments);
            left1 == [] && rs == EffectAll(d, packs).1 && Agree(d1, EffectAll(d, packs).0)
    decreases |segments|
  {
    hide Drain, Effect, Pack.Bytes;
    if segments == [] {
      assert left + [] == left;
      NothingPending(packs, left);
    } else {
      var buf := left + segments[0];
      var s := StreamBytes(packs);
      assert s == buf + Flatten(segments[1..]);
      var m, part := CutAt(packs, |buf|);
      assert s[..|buf|] == buf;
      if packs == [] {
        assert buf == [] && m == 0;
        DrainNothing(d);
        AnySegmentation(d, packs, [], segments[1..]);
      } else {
        DrainPacks(d, packs, m, part);
        var (d1, left1, a) := Drain(d, buf);
        var front, back := packs[..m], packs[m..];
        assert packs == front + back;
        StreamConcat(front, back);
        EffectConcat(d, front, back);
        CancelFront(StreamBytes(front), part, Flatten(segments[1..]), StreamBytes(back));
        AnySegmentation(d1, back, part, segments[1..]);
        EffectAllAgrees(d1, EffectAll(d, front).0, back);
      }
    }
  }

  lemma CancelFront(x: seq<byte>, a: seq<byte>, b: seq<byte>, c: seq<byte>)
    requires x + a + b == x + c
    ensures a + b == c
  {
    assert (x + a + b)[|x|..] == a + b && (x + c)[|x|..] == c;
  }

  lemma NothingPending(packs: seq<Pack>, left: seq<byte>)
    requires AllValid(packs) && Partial(packs, left) && left == StreamBytes(packs)
    ensures packs == [] && left == []
  {
  }

  lemma DrainNothing(d: Demux)
    ensures Drain(d, []) == (d, [], [])
  {
  }

  // ---------------------------------------------------------------- frames

  /** The PES packets among a list of reports. */
  function PesOnly(rs: seq<Report>): seq<Report> {
    if rs == [] then []
    else if rs[0].PesPack? then [rs[0]] + PesOnly(rs[1..])
    else PesOnly(rs[1..])
  }

  lemma {:induction false} PesOnlyConcat(a: seq<Report>, b: seq<Report>)
    ensures PesOnly(a + b) == PesOnly(a) + PesOnly(b)
  {
    if a == [] {
      assert a + b == b;
    } else {
      assert (a + b)[1..] == a[1..] + b;
      PesOnlyConcat(a[1..], b);
    }
  }

  /** One report per piece, with the stream number and the time in milliseconds. */
  function PieceReports(stream: nat, pts: nat, pieces: seq<seq<byte>>): (rs: seq<Report>)
    ensures |rs| == |pieces|
    ensures forall r <- rs :: r.PesPack? && r.stream == stream && r.pts == pts % TWO33 / 90 && r.len == |r.es|
  {
    if pieces == [] then []
    else [PesPack(stream, pts % TWO33 / 90, |pieces[0]|, pieces[0])] + PieceReports(stream, pts, pieces[1..])
  }

  function FrameReports(frame: Frame): seq<Report> {
    PieceReports(frame.stream, frame.pts, Pieces(frame.data, PieceLength(frame.pesLength)))
  }

  function RunReports(frames: seq<Frame>): seq<Report> {
    if frames == [] then [] else FrameReports(frames[0]) + RunReports(frames[1..])
  }

  /** The payloads of a list of reports, put together. */
  function Payload(rs: seq<Report>): seq<byte> {
    if rs == [] then [] else (if rs[0].PesPack? then rs[0].es else []) + Payload(rs[1..])
  }

  lemma {:induction false} PiecesPayload(stream: nat, pts: nat, pieces: seq<seq<byte>>)
    ensures Payload(PieceReports(stream, pts, pieces)) == Flatten(pieces)
  {
    if pieces != [] {
      PiecesPayload(stream, pts, pieces[1..]);
    }
  }

  /** The reports due for a frame carry the frame, and its stream number and time stamp. */
  lemma FrameReportsCarryFrame(frame: Frame)
    ensures Payload(FrameReports(frame)) == frame.data
    ensures forall r <- FrameReports(frame) :: r.PesPack? && r.stream == frame.stream && r.pts == frame.pts % TWO33 / 90
  {
    var n := PieceLength(frame.pesLength);
    PiecesPayload(frame.stream, frame.pts, Pieces(frame.data, n));
    FlattenPieces(frame.data, n);
  }

  predicate Tuned(d: Demux, p: Program) { d.programNum == 1 && d.entries == EntriesFrom(p.kinds, 0) }

  lemma {:induction false} EntryAt(kinds: seq<byte>, from: nat, i: nat)
    requires from <= i < |kinds|
    ensures EntriesFrom(kinds, from)[i - from] == Entry(StreamId(kinds[i], 0, i), kinds[i])
    decreases i - from
  {
    hide StreamId;
    if i > from {
      EntryAt(kinds, from + 1, i);
    }
  }

  /** Stream ids identify streams. */
  lemma FindStream(p: Program, stream: nat)
    requires p.Valid() && stream < |p.kinds|
    ensures FindEntry(EntriesFrom(p.kinds, 0), StreamId(p.kinds[stream], 0, stream)) == stream
  {
    hide EntriesFrom, StreamId;
    EntryAt(p.kinds, 0, stream);
    MediaIds(p, stream);
    forall i | 0 <= i < stream ensures EntriesFrom(p.kinds, 0)[i].id != StreamId(p.kinds[stream], 0, stream) {
      EntryAt(p.kinds, 0, i);
      MediaIds(p, i);
    }
  }

  lemma {:induction false} MediaEffects(d: Demux, p: Program, stream: nat, pts: nat, pieces: seq<seq<byte>>)
    requires p.Valid() && stream < |p.kinds| && Tuned(d, p) && forall s <- pieces :: |s| + 13 <= 65535
    ensures var packs := MediaPacks(StreamId(p.kinds[stream], 0, stream), pts, pieces);
            && AllValid(packs)
            && Tuned(EffectAll(d, packs).0, p) && EffectAll(d, packs).1 == PieceReports(stream, pts, pieces)
    decreases |pieces|
  {
    hide StreamId, EntriesFrom;
    var id := StreamId(p.kinds[stream], 0, stream);
    MediaIds(p, stream);
    FindStream(p, stream);
    if pieces != [] {
      var packs := MediaPacks(id, pts, pieces);
      assert packs[1..] == MediaPacks(id, pts, pieces[1..]);
      MediaEffects(d.(started := true), p, stream, pts, pieces[1..]);
    }
  }

  lemma HeadEffects(d: Demux, frame: Frame, p: Program)
    requires p.Valid() && frame.stream < |p.kinds| && (frame.key || Tuned(d, p))
    ensures var packs := [PackHead(frame.pts, p.muxRate)] + (if frame.key then [SysHead(p), StreamMap(p)] else []);
            && AllValid(packs)
            && Tuned(EffectAll(d, packs).0, p) && PesOnly(EffectAll(d, packs).1) == []
  {
    hide EntriesFrom;
    var none: seq<Pack> := [];
    if frame.key {
      var a, b, c := PackHead(frame.pts, p.muxRate), SysHead(p), StreamMap(p);
      assert [a] + [b, c] == [a] + ([b] + [c]);
      OneEffect(d, a);
      OneEffect(Effect(d, a).0, b);
      OneEffect(Effect(Effect(d, a).0, b).0, c);
      EffectConcat(Effect(d, a).0, [b], [c]);
      EffectConcat(d, [a], [b] + [c]);
      assert PesOnly([NoPes] + ([NoPes] + [NoPes])) == PesOnly([NoPes, NoPes, NoPes]);
    } else {
      OneEffect(d, PackHead(frame.pts, p.muxRate));
      assert [PackHead(frame.pts, p.muxRate)] + none == [PackHead(frame.pts, p.muxRate)];
    }
  }

  lemma OneEffect(d: Demux, pack: Pack)
    requires pack.Valid()
    ensures AllValid([pack]) && EffectAll(d, [pack]) == (Effect(d, pack).0, [Effect(d, pack).1])
  {
    hide Effect;
    var packs := [pack];
    assert packs[1..] == [];
    assert EffectAll(Effect(d, pack).0, packs[1..]) == (Effect(d, pack).0, []);
    assert [Effect(d, pack).1] + [] == [Effect(d, pack).1];
  }

  /** The packs of one call yield the reports due for the frame, and keep the program known. */
  lemma CallEffects(d: Demux, frame: Frame, p: Program)
    requires p.Valid() && frame.stream < |p.kinds| && (frame.key || Tuned(d, p))
    ensures var packs := FramePacks(frame, p);
            && AllValid(packs)
            && Tuned(EffectAll(d, packs).0, p) && PesOnly(EffectAll(d, packs).1) == FrameReports(frame)
  {
    hide EffectAll, PesOnly, MediaPacks, Tuned, AllValid, Program.Valid;
    var head := [PackHead(frame.pts, p.muxRate)] + (if frame.key then [SysHead(p), StreamMap(p)] else []);
    var pieces := Pieces(frame.data, PieceLength(frame.pesLength));
    var media := MediaPacks(FrameId(frame, p), frame.pts, pieces);
    HeadEffects(d, frame, p);
    var (d1, ra) := EffectAll(d, head);
    MediaEffects(d1, p, frame.stream, frame.pts, pieces);
    EffectConcat(d, head, media);
    PesOnlyConcat(ra, EffectAll(d1, media).1);
    AllPes(EffectAll(d1, media).1);
    assert [] + FrameReports(frame) == FrameReports(frame);
  }

  lemma {:induction false} AllPes(rs: seq<Report>)
    ensures (forall r <- rs :: r.PesPack?) ==> PesOnly(rs) == rs
  {
    if rs != [] && forall r <- rs :: r.PesPack? {
      assert rs[0] in rs;
      AllPes(rs[1..]);
    }
  }

  lemma {:induction false} RunEffects(d: Demux, frames: seq<Frame>, p: Program)
    requires p.Valid() && AllFit(frames, |p.kinds|) && (Tuned(d, p) || (frames != [] && frames[0].key))
    ensures var packs := RunPacks(frames, p);
            && AllValid(packs)
            && Tuned(EffectAll(d, packs).0, p) && PesOnly(EffectAll(d, packs).1) == RunReports(frames)
    decreases |frames|
  {
    hide EffectAll, PesOnly, FramePacks, Tuned, AllValid, FrameReports;
    if frames == [] {
      NoEffects(d);
    } else {
      var f := frames[0];
      CallEffects(d, f, p);
      var (d1, ra) := EffectAll(d, FramePacks(f, p));
      RunEffects(d1, frames[1..], p);
      EffectConcat(d, FramePacks(f, p), RunPacks(frames[1..], p));
      PesOnlyConcat(ra, EffectAll(d1, RunPacks(frames[1..], p)).1);
    }
  }

  lemma NoEffects(d: Demux)
    ensures AllValid([]) && EffectAll(d, []) == (d, []) && PesOnly([]) == []
  {
  }

  /** The output of a run of calls. */
  function RunBytes(frames: seq<Frame>, p: Program): seq<byte>
    requires p.Valid() && AllFit(frames, |p.kinds|)
  {
    RunPacksValid(frames, p);
    StreamBytes(RunPacks(frames, p))
  }

  /**
   * Whole runs: the output of any run of calls that starts with a key frame, delivered to a fresh
   * demultiplexer in arbitrary pieces, yields exactly the PES packets due for the frames, in
   * order, for arbitrary frame contents; nothing is left over and the program is known.
   */
  lemma RunRoundTrip(frames: seq<Frame>, p: Program, segments: seq<seq<byte>>)
    requires p.Valid() && AllFit(frames, |p.kinds|) && frames != [] && frames[0].key
    requires Flatten(segments) == RunBytes(frames, p)
    ensures var (d, left, rs) := DrainAll(EMPTY, [], segments);
            left == [] && PesOnly(rs) == RunReports(frames) && Tuned(d, p)
  {
    hide DrainAll, EffectAll, StreamBytes;
    RunPacksValid(frames, p);
    var packs := RunPacks(frames, p);
    RunEffects(EMPTY, frames, p);
    assert packs[0].PackHead? by {
      assert FramePacks(frames[0], p)[0].PackHead?;
    }
    assert [] + Flatten(segments) == Flatten(segments);
    AnySegmentation(EMPTY, packs, [], segments);
  }
}
