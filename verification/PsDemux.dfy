/** The program stream demultiplexer of file/libmpeg/psdemux.c: one pack per call. */
module PsDemux {
  import opened Bytes
  import opened Pes

  /** The fields of TDemux that outlive a call. */
  datatype Demux = Demux(started: bool, programNum: nat, entries: seq<Entry>)

  const EMPTY := Demux(false, 0, [])

  /** A PES packet: its length field may say less than its header takes, and then `len` is negative. */
  datatype Report = NoPes | PesPack(stream: nat, pts: nat, len: int, es: seq<byte>)

  /** A start code that the scan stops at. */
  predicate StopsAt(buf: seq<byte>, i: nat, started: bool)
    requires i + 4 < |buf|
  {
    buf[i] == 0 && buf[i + 1] == 0 && buf[i + 2] == 1 && buf[i + 3] >= 0xB9 && (started || buf[i + 3] == 0xBA)
  }

  function Scan(buf: seq<byte>, i: nat, started: bool): (n: nat)
    ensures n >= i
    decreases |buf| - i
  {
    if i + 4 >= |buf| || StopsAt(buf, i, started) then i else Scan(buf, i + 1, started)
  }

  function HeaderSize(s: seq<byte>): (n: nat)
    ensures n <= |s|
  {
    if |s| < 14 then 0
    else
      var size := 14 + s[13] % 8;
      if |s| < size then 0 else size
  }

  /** handle_common_pack */
  function CommonSize(s: seq<byte>): (n: nat)
    ensures n <= |s| && (n > 0 ==> n >= 6)
  {
    if |s| < 6 then 0
    else
      var size := 6 + LoadBe16(s[4..6]);
      if |s| < size then 0 else size
  }

  /** BUF2U16 on plain, signed, chars: a byte with its top bit set makes the length negative. */
  function SignedU16(hi: byte, lo: byte): int {
    if lo >= 128 then lo as int - 256
    else if hi >= 128 then (hi as int - 256) * 256 + lo
    else (hi as int) * 256 + lo
  }

  /** A byte at an offset that a handler computes; outside of the buffer it is taken to be zero. */
  function Peek(s: seq<byte>, k: int): byte { if 0 <= k < |s| then s[k] else 0 }

  function PeekLength(s: seq<byte>, k: int): int { SignedU16(Peek(s, k), Peek(s, k + 1)) }

  /** The entries of a stream map from `pos` on, counted from `base`; only audio and video count. */
  function MapEntries(s: seq<byte>, base: int, pos: nat, len: int, room: nat): seq<Entry>
    decreases len - pos
  {
    if pos >= len then []
    else
      var at, info := base + pos, PeekLength(s, base + pos + 2);
      if info < 0 || room == 0 then []
      else if Peek(s, at + 1) >= 0xC0 then
        [Entry(Peek(s, at + 1), Peek(s, at))] + MapEntries(s, base, pos + 4 + info, len, room - 1)
      else MapEntries(s, base, pos + 4 + info, len, room)
  }

  /** handle_map, for a complete map at the front of `s`. */
  function OnMap(d: Demux, s: seq<byte>): Demux {
    var info := PeekLength(s, 8);
    d.(programNum := 1, entries := MapEntries(s, 12 + info, 0, PeekLength(s, 10 + info), MAX_STREAM_NUM))
  }

  /** handle_pes, for a complete packet at the front of `s`. */
  function OnPes(d: Demux, s: seq<byte>): Report
    requires CommonSize(s) > 0
  {
    var head := HeadLen(s);
    if head == 0 || d.programNum != 1 || FindEntry(d.entries, s[3]) == |d.entries| then NoPes
    else
      var len := ParsedEsLen(s);
      HeadAndPayload(s);
      PesPack(FindEntry(d.entries, s[3]), ParsedPts(s, 0), len, if len < 0 then [] else s[head..head + len])
  }

  /** Header and payload together are the size of the packet. */
  lemma HeadAndPayload(s: seq<byte>)
    requires CommonSize(s) > 0 && HeadLen(s) > 0
    ensures HeadLen(s) + ParsedEsLen(s) == CommonSize(s)
  {
  }

  /** The switch over the pack type; a size of 0 means that the pack is not complete. */
  function OnPack(d: Demux, s: seq<byte>): (r: (Demux, nat, Report))
    requires |s| >= 5
    ensures r.1 <= |s|
  {
    if s[3] == 0xBA then (d, HeaderSize(s), NoPes)
    else if s[3] == 0xB9 then (d, 4, NoPes)
    else
      var n := CommonSize(s);
      if n == 0 || s[3] == 0xBB then (d, n, NoPes)
      else if s[3] == 0xBC then (OnMap(d, s), n, NoPes)
      else (d, n, OnPes(d, s))
  }

  /** lts_ps_demux on a non-empty buffer: new state, return value, report. */
  function Take(d: Demux, buf: seq<byte>): (r: (Demux, int, Report))
    requires buf != []
    ensures r.1 <= |buf|
  {
    var i := Scan(buf, 0, d.started);
    if i + 4 < |buf| then
      var (d1, n, r) := OnPack(d.(started := true), buf[i..]);
      (d1, i + n, r)
    else if !d.started then (d, -1, NoPes)
    else
      var n := if i == 0 then 0 else i - 1;
      (d, if i + n > |buf| then 0 else i + n, NoPes)
  }

  /** The size of the pack at the front of `s`, which is all that is looked at in sync_only mode. */
  function PackSize(s: seq<byte>): (n: nat)
    requires |s| >= 5
    ensures n <= |s|
  {
    if s[3] == 0xBA then HeaderSize(s) else if s[3] == 0xB9 then 4 else CommonSize(s)
  }

  /** lts_ps_demux in sync_only mode. */
  function Sync(d: Demux, buf: seq<byte>): (r: (Demux, int, Report))
    requires buf != []
  {
    var i := Scan(buf, 0, d.started);
    if i + 4 < |buf| then (d.(started := true), i + PackSize(buf[i..]), NoPes)
    else if !d.started then (d, -1, NoPes)
    else
      var n := if i == 0 then 0 else i - 1;
      (d, if i + n > |buf| then 0 else i + n, NoPes)
  }

  /** It advances as the full mode does, and learns and reports nothing. */
  lemma SyncAgrees(d: Demux, buf: seq<byte>)
    requires buf != []
    ensures Sync(d, buf) == (d.(started := Take(d, buf).0.started), Take(d, buf).1, NoPes)
  {
    hide Scan, HeaderSize, CommonSize, MapEntries, OnPes;
  }

  // ---------------------------------------------------------------- no start code

  lemma {:induction false} ScanEnds(buf: seq<byte>, i: nat, started: bool)
    requires Scan(buf, i, started) + 4 >= |buf| && i <= Max(0, |buf| - 4)
    ensures Scan(buf, i, started) == Max(0, |buf| - 4)
    decreases |buf| - i
  {
    if i + 4 < |buf| {
      ScanEnds(buf, i + 1, started);
    }
  }

  function Max(a: int, b: int): int { if a < b then b else a }

  /** What is returned when no start code is seen: nothing is consumed, except of buffers of five to nine bytes. */
  lemma NothingSeen(d: Demux, buf: seq<byte>)
    requires buf != [] && Scan(buf, 0, d.started) + 4 >= |buf|
    ensures Take(d, buf) ==
            (d, if !d.started then -1 else if 5 <= |buf| <= 9 then 2 * |buf| - 9 else 0, NoPes)
  {
    hide Scan;
    ScanEnds(buf, 0, d.started);
  }

  /** The bytes consumed then include some at which no start code has been looked for exactly for six to nine bytes. */
  lemma DropsUnseenIff(d: Demux, buf: seq<byte>)
    requires d.started && buf != [] && Scan(buf, 0, d.started) + 4 >= |buf|
    ensures Take(d, buf).1 > Max(0, |buf| - 4) <==> 6 <= |buf| <= 9
  {
    hide Scan, Take;
    NothingSeen(d, buf);
  }

  /** Nine bytes that are dropped although they end in a start code; with a byte more it is found. */
  lemma StartCodeDropped(d: Demux, more: seq<byte>)
    requires d.started && more != []
    ensures var buf: seq<byte> := [9, 9, 9, 9, 9] + [0, 0, 1, 0xBA];
            Take(d, buf) == (d, 9, NoPes) && Scan(buf + more, 0, true) == 5
  {
    var buf: seq<byte> := [9, 9, 9, 9, 9] + [0, 0, 1, 0xBA];
    assert buf[0] == 9 && buf[1] == 9 && buf[2] == 9 && buf[3] == 9 && buf[4] == 9;
    var long := buf + more;
    assert long[..9] == buf;
    assert long[5] == 0 && long[6] == 0 && long[7] == 1 && long[8] == 0xBA;
    ScanPast(buf, d.started);
    ScanPast(long, true);
    NothingSeen(d, buf);
  }

  lemma ScanPast(buf: seq<byte>, started: bool)
    requires |buf| >= 9 && started && forall i :: 0 <= i < 5 ==> buf[i] == 9
    ensures Scan(buf, 0, started) == Scan(buf, 5, started)
  {
    assert Scan(buf, 0, started) == Scan(buf, 1, started) && Scan(buf, 1, started) == Scan(buf, 2, started);
    assert Scan(buf, 2, started) == Scan(buf, 3, started) && Scan(buf, 3, started) == Scan(buf, 4, started);
  }

  /** Garbage is skipped exactly if nothing in it, together with what follows, looks like a start code. */
  lemma {:induction false} ScanSkipsIff(buf: seq<byte>, i: nat, k: nat, started: bool)
    requires i <= k && k + 4 < |buf| && StopsAt(buf, k, started)
    ensures Scan(buf, i, started) == k <==> forall j :: i <= j < k ==> !StopsAt(buf, j, started)
    decreases k - i
  {
    hide StopsAt;
    if i < k && !StopsAt(buf, i, started) {
      ScanSkipsIff(buf, i + 1, k, started);
    }
  }

  /** The caller's loop: take packs off the front until there is none, then keep the rest. */
  function Drain(d: Demux, buf: seq<byte>): (Demux, seq<byte>, seq<Report>)
    decreases |buf|
  {
    if buf == [] then (d, buf, [])
    else
      var (d1, ret, r) := Take(d, buf);
      if ret <= 0 then (d1, buf, [])
      else
        var (d2, left, rs) := Drain(d1, buf[ret..]);
        (d2, left, [r] + rs)
  }

  /** Segments arrive one by one behind what is left. */
  function DrainAll(d: Demux, left: seq<byte>, segments: seq<seq<byte>>): (Demux, seq<byte>, seq<Report>)
    decreases |segments|
  {
    if segments == [] then (d, left, [])
    else
      var (d1, left1, a) := Drain(d, left + segments[0]);
      var (d2, left2, b) := DrainAll(d1, left1, segments[1..]);
      (d2, left2, a + b)
  }
}
