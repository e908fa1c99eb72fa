/**
 * The Annex B splitter of file/libh26x/h264demux.cpp (ITU-T H.264 Annex B): it cuts a file that
 * is read in blocks into frames, and keeps frames read while probing for later calls.
 */
module AnnexB {
  import opened Bytes

  // ---------------------------------------------------------------- one frame

  /**
   * A start code the scans see at `i`: 00 00 01 or, where a frame ends (`stop`), also 00 00 00 01.
   * The scans stop four bytes before the end of the buffer.
   */
  predicate Mark(b: seq<byte>, i: nat, stop: bool) {
    i + 4 < |b| && b[i] == 0 && b[i + 1] == 0 && (b[i + 2] == 1 || (stop && b[i + 2] == 0 && b[i + 3] == 1))
  }

  /** The first start code from `i` on. */
  function Find(b: seq<byte>, i: nat, stop: bool): (r: Option<nat>)
    ensures r.Some? ==> i <= r.value && Mark(b, r.value, stop)
    ensures r.Some? ==> forall q: nat :: i <= q < r.value ==> !Mark(b, q, stop)
    ensures r.None? ==> forall q: nat :: i <= q ==> !Mark(b, q, stop)
    decreases |b| - i
  {
    if i + 4 >= |b| then None
    else if Mark(b, i, stop) then Some(i)
    else Find(b, i + 1, stop)
  }

  /** A function of the marks alone: the position is where the scan would stop. */
  lemma FoundAt(b: seq<byte>, i: nat, stop: bool, p: nat)
    requires i <= p && Mark(b, p, stop) && forall q: nat :: i <= q < p ==> !Mark(b, q, stop)
    ensures Find(b, i, stop) == Some(p)
  {
    hide Mark;
    var r := Find(b, i, stop);
    assert r.Some?;
  }

  /** Start and end of the first frame. */
  datatype Span = Span(start: nat, end: nat)

  /** H264ParseFrame */
  function Parse(b: seq<byte>): (r: Option<Span>)
    ensures r.Some? ==> 3 <= r.value.start <= r.value.end < |b|
  {
    var first := Find(b, 0, false);
    if first.None? then None
    else
      var last := Find(b, first.value + 3, true);
      if last.None? then None else Some(Span(first.value + 3, last.value))
  }

  function FrameIn(b: seq<byte>, s: Span): seq<byte>
    requires s.start <= s.end <= |b|
  {
    START_CODE + b[s.start..s.end]
  }

  /** Everything the splitter takes from a buffer, and what it leaves. */
  function Split(b: seq<byte>): (r: (seq<seq<byte>>, seq<byte>))
    ensures |r.1| <= |b|
    decreases |b|
  {
    var s := Parse(b);
    if s.None? then ([], b)
    else
      var (fs, rest) := Split(b[s.value.end..]);
      ([FrameIn(b, s.value)] + fs, rest)
  }

  // ---------------------------------------------------------------- segmentation

  lemma MarkExtends(b: seq<byte>, c: seq<byte>, i: nat, stop: bool)
    ensures Mark(b, i, stop) ==> Mark(b + c, i, stop)
    ensures i + 4 < |b| ==> Mark(b, i, stop) == Mark(b + c, i, stop)
  {
  }

  lemma FindExtends(b: seq<byte>, c: seq<byte>, i: nat, stop: bool)
    requires Find(b, i, stop).Some?
    ensures Find(b + c, i, stop) == Find(b, i, stop)
  {
    hide Find;
    var p := Find(b, i, stop).value;
    MarkExtends(b, c, p, stop);
    forall q: nat | i <= q < p
      ensures !Mark(b + c, q, stop)
    {
      MarkExtends(b, c, q, stop);
    }
    FoundAt(b + c, i, stop, p);
  }

  /** A frame that is found stays the same when more bytes follow. */
  lemma ParseExtends(b: seq<byte>, c: seq<byte>)
    requires Parse(b).Some?
    ensures Parse(b + c) == Parse(b)
    ensures var s := Parse(b).value;
            FrameIn(b + c, s) == FrameIn(b, s) && (b + c)[s.end..] == b[s.end..] + c
  {
    hide Find;
    FindExtends(b, c, 0, false);
    FindExtends(b, c, Find(b, 0, false).value + 3, true);
    var s := Parse(b).value;
    assert (b + c)[s.start..s.end] == b[s.start..s.end];
  }

  lemma {:induction false} SplitExtends(b: seq<byte>, c: seq<byte>)
    ensures var (fs, rest) := Split(b);
            var (more, last) := Split(rest + c);
            Split(b + c) == (fs + more, last)
    decreases |b|
  {
    hide Parse, FrameIn;
    var s := Parse(b);
    if s.None? {
      assert [] + Split(b + c).0 == Split(b + c).0;
    } else {
      ParseExtends(b, c);
      SplitExtends(b[s.value.end..], c);
      var (fs, rest) := Split(b[s.value.end..]);
      assert [FrameIn(b, s.value)] + fs + Split(rest + c).0 == [FrameIn(b, s.value)] + (fs + Split(rest + c).0);
    }
  }

  /** Splitting after every block. */
  function SplitBlocks(left: seq<byte>, blocks: seq<seq<byte>>): (seq<seq<byte>>, seq<byte>)
    decreases |blocks|
  {
    if blocks == [] then ([], left)
    else
      var (fs, rest) := Split(left + blocks[0]);
      var (more, last) := SplitBlocks(rest, blocks[1..]);
      (fs + more, last)
  }

  /** The frames, and what is left, are those of the whole input, however it is cut into blocks. */
  lemma {:induction false} AnySegmentation(left: seq<byte>, blocks: seq<seq<byte>>)
    requires Parse(left).None?
    ensures SplitBlocks(left, blocks) == Split(left + Flatten(blocks))
    decreases |blocks|
  {
    hide Parse;
    if blocks == [] {
      assert left + Flatten(blocks) == left;
    } else {
      var (fs, rest) := Split(left + blocks[0]);
      SplitLeavesNone(left + blocks[0]);
      AnySegmentation(rest, blocks[1..]);
      SplitExtends(left + blocks[0], Flatten(blocks[1..]));
      assert left + blocks[0] + Flatten(blocks[1..]) == left + Flatten(blocks);
    }
  }

  lemma {:induction false} SplitLeavesNone(b: seq<byte>)
    ensures Parse(Split(b).1).None?
    decreases |b|
  {
    hide FrameIn;
    if Parse(b).Some? {
      SplitLeavesNone(b[Parse(b).value.end..]);
    }
  }

  // ---------------------------------------------------------------- NAL units

  /** A NAL unit behind a start code of four or of three bytes. */
  datatype Unit = Unit(long: bool, nal: seq<byte>)

  function Code(long: bool): (c: seq<byte>)
    ensures |c| == if long then 4 else 3
  {
    if long then START_CODE else [0, 0, 1]
  }

  function Joined(units: seq<Unit>): seq<byte> {
    if units == [] then [] else Code(units[0].long) + units[0].nal + Joined(units[1..])
  }

  function Nals(units: seq<Unit>): seq<seq<byte>> {
    if units == [] then [] else [units[0].nal] + Nals(units[1..])
  }

  /** No 00 00 01 inside, as the standard demands of a NAL unit. */
  predicate Clean(nal: seq<byte>) {
    forall q :: 0 <= q < |nal| - 2 ==> !(nal[q] == 0 && nal[q + 1] == 0 && nal[q + 2] == 1)
  }

  predicate EndsInZero(nal: seq<byte>) {
    nal != [] && nal[|nal| - 1] == 0
  }

  /** A unit that is cut off where it ends, in front of `tail`, which begins with a start code. */
  predicate Delimited(nal: seq<byte>, long: bool, tail: seq<byte>) {
    Clean(nal) && (!long ==> !EndsInZero(nal)) && |tail| > 4
  }

  /** The first scan sees the start code the buffer begins with, or nothing. */
  lemma FirstScan(b: seq<byte>, long: bool)
    requires |b| >= |Code(long)| && b[..|Code(long)|] == Code(long)
    ensures Find(b, 0, false) == (if |b| > |Code(long)| + 1 then Some(|Code(long)| - 3) else None)
  {
    hide Find;
    var k := |Code(long)|;
    var c := b[..k];
    assert b[0] == c[0] && b[1] == c[1] && b[2] == c[2] && (long ==> b[3] == c[3]);
    if |b| > k + 1 {
      assert Mark(b, k - 3, false) && (long ==> !Mark(b, 0, false));
      FoundAt(b, 0, false, k - 3);
    } else {
      assert long ==> !Mark(b, 0, false);
    }
  }

  /** The bytes of a buffer from the start of a unit on. */
  lemma Seen(code: seq<byte>, nal: seq<byte>, tail: seq<byte>, k: nat)
    requires k < |nal| + |tail|
    ensures (code + nal + tail)[|code| + k] == if k < |nal| then nal[k] else tail[k - |nal|]
  {
  }

  lemma TailBytes(tail: seq<byte>, long: bool)
    requires |tail| >= |Code(long)| && tail[..|Code(long)|] == Code(long)
    ensures tail[0] == 0 && tail[1] == 0 && (long ==> tail[2] == 0 && tail[3] == 1) && (!long ==> tail[2] == 1)
  {
    var c := tail[..|Code(long)|];
    assert tail[0] == c[0] && tail[1] == c[1] && tail[2] == c[2] && (long ==> tail[3] == c[3]);
  }

  /** No start code is seen before the end of such a unit ... */
  lemma NoMarkInside(code: seq<byte>, nal: seq<byte>, long: bool, tail: seq<byte>, k: nat)
    requires |tail| >= |Code(long)| && tail[..|Code(long)|] == Code(long)
    requires Clean(nal) && (!long ==> !EndsInZero(nal)) && k < |nal|
    ensures !Mark(code + nal + tail, |code| + k, true)
  {
    hide Code;
    var b := code + nal + tail;
    TailBytes(tail, long);
    if |code| + k + 4 < |b| {
      Seen(code, nal, tail, k);
      Seen(code, nal, tail, k + 1);
      Seen(code, nal, tail, k + 2);
      Seen(code, nal, tail, k + 3);
    }
  }

  /** ... and one is seen at its end if a byte follows that start code. */
  lemma MarkAtEnd(code: seq<byte>, nal: seq<byte>, long: bool, tail: seq<byte>)
    requires |tail| >= |Code(long)| && tail[..|Code(long)|] == Code(long)
    ensures Mark(code + nal + tail, |code| + |nal|, true) <==> |tail| > 4
  {
    hide Code;
    TailBytes(tail, long);
    if |tail| > 4 {
      Seen(code, nal, tail, |nal|);
      Seen(code, nal, tail, |nal| + 1);
      Seen(code, nal, tail, |nal| + 2);
      Seen(code, nal, tail, |nal| + 3);
    }
  }

  /** A start code inside, or a zero in front of a short one, is seen before the end. */
  lemma MarkInside(code: seq<byte>, nal: seq<byte>, long: bool, tail: seq<byte>) returns (k: nat)
    requires |tail| > 4 && tail[..|Code(long)|] == Code(long) && !(Clean(nal) && (!long ==> !EndsInZero(nal)))
    ensures k < |nal| && Mark(code + nal + tail, |code| + k, true)
  {
    hide Code;
    TailBytes(tail, long);
    if Clean(nal) {
      k := |nal| - 1;
    } else {
      var q :| 0 <= q < |nal| - 2 && nal[q] == 0 && nal[q + 1] == 0 && nal[q + 2] == 1;
      k := q;
    }
    Seen(code, nal, tail, k);
    Seen(code, nal, tail, k + 1);
    Seen(code, nal, tail, k + 2);
    Seen(code, nal, tail, k + 3);
  }

  /** The first unit is cut off at its end exactly if it is delimited. */
  lemma TakeIff(own: bool, nal: seq<byte>, long: bool, tail: seq<byte>)
    requires |tail| >= |Code(long)| && tail[..|Code(long)|] == Code(long)
    ensures var k := |Code(own)|;
            Parse(Code(own) + nal + tail) == Some(Span(k, k + |nal|)) <==> Delimited(nal, long, tail)
  {
    hide Find, Mark, Clean, EndsInZero, Code;
    var code := Code(own);
    var b := code + nal + tail;
    assert b[..|code|] == code;
    FirstScan(b, own);
    MarkAtEnd(code, nal, long, tail);
    if Delimited(nal, long, tail) {
      forall q: nat | |code| <= q < |code| + |nal|
        ensures !Mark(b, q, true)
      {
        NoMarkInside(code, nal, long, tail, q - |code|);
      }
      FoundAt(b, |code|, true, |code| + |nal|);
    } else if |tail| > 4 {
      var k := MarkInside(code, nal, long, tail);
    }
  }

  /** Whatever is cut off first begins behind the first start code. */
  lemma TakeStart(own: bool, rest: seq<byte>)
    ensures var s := Parse(Code(own) + rest); s.Some? ==> s.value.start == |Code(own)|
  {
    hide Find, Code;
    var b := Code(own) + rest;
    assert b[..|Code(own)|] == Code(own);
    FirstScan(b, own);
  }

  /** What the last unit must satisfy for the splitter to wait for its end. */
  predicate Waits(nal: seq<byte>) {
    forall q: nat :: q < |nal| ==> !Mark(nal, q, true)
  }

  lemma MarkBehind(code: seq<byte>, nal: seq<byte>, q: nat)
    ensures Mark(code + nal, |code| + q, true) <==> Mark(nal, q, true)
  {
    var b, k := code + nal, |code|;
    if q + 4 < |nal| {
      assert b[k + q] == nal[q] && b[k + q + 1] == nal[q + 1]
             && b[k + q + 2] == nal[q + 2] && b[k + q + 3] == nal[q + 3];
    }
  }

  lemma LastUnit(own: bool, nal: seq<byte>)
    ensures Parse(Code(own) + nal).None? <==> Waits(nal)
  {
    hide Find, Mark, Code;
    var code := Code(own);
    var b := code + nal;
    assert b[..|code|] == code;
    FirstScan(b, own);
    if |nal| > 1 {
      var r := Find(b, |code|, true);
      if r.Some? {
        MarkBehind(code, nal, r.value - |code|);
        MarkInRange(nal, r.value - |code|);
      } else {
        forall q: nat | q < |nal|
          ensures !Mark(nal, q, true)
        {
          MarkBehind(code, nal, q);
        }
      }
    } else {
      TooShortForMark(nal);
    }
  }

  lemma MarkInRange(nal: seq<byte>, q: nat)
    requires Mark(nal, q, true)
    ensures q < |nal|
  {
  }

  lemma TooShortForMark(nal: seq<byte>)
    requires |nal| <= 1
    ensures Waits(nal)
  {
  }

  /**
   * Every unit but the last is clean, and does not end in zero in front of a three-byte code; the last
   * has one byte behind a four-byte code or two behind a three-byte one, and no start code that is seen.
   */
  predicate Splittable(units: seq<Unit>)
    requires units != []
  {
    if |units| == 1 then Waits(units[0].nal)
    else
      && Clean(units[0].nal) && (!units[1].long ==> !EndsInZero(units[0].nal))
      && (|units| == 2 ==> |Code(units[1].long)| + |units[1].nal| > 4)
      && Splittable(units[1..])
  }

  lemma JoinedShape(units: seq<Unit>)
    requires units != []
    ensures var k := |Code(units[0].long)|;
            |Joined(units)| >= k && Joined(units)[..k] == Code(units[0].long)
    ensures |Joined(units)| > 4 <==> |units| > 1 || |Code(units[0].long)| + |units[0].nal| > 4
  {
    hide Code;
    if |units| == 1 {
      assert Joined(units[1..]) == [];
    } else {
      assert |Joined(units[1..])| >= 3;
    }
  }

  lemma JoinedOne(units: seq<Unit>)
    requires |units| == 1
    ensures Joined(units) == Code(units[0].long) + units[0].nal
  {
    assert Joined(units[1..]) == [];
  }

  lemma JoinedStep(units: seq<Unit>)
    requires units != []
    ensures Joined(units) == Code(units[0].long) + units[0].nal + Joined(units[1..])
  {
  }

  /** The frame cut off is the unit exactly if it is cut at the unit's end. */
  lemma CutFrame(own: bool, nal: seq<byte>, tail: seq<byte>, end: nat)
    requires |Code(own)| <= end <= |Code(own) + nal + tail|
    ensures var b, k := Code(own) + nal + tail, |Code(own)|;
            && (FrameIn(b, Span(k, end)) == START_CODE + nal <==> end == k + |nal|)
            && b[k + |nal|..] == tail
  {
    hide Code;
    var b, k := Code(own) + nal + tail, |Code(own)|;
    if end == k + |nal| {
      assert b[k..end] == nal;
    } else {
      assert |FrameIn(b, Span(k, end))| == 4 + end - k;
    }
  }

  lemma FrontNals(units: seq<Unit>)
    requires |units| > 1
    ensures var front := units[..|units| - 1];
            && Prefixed(Nals(front)) == [START_CODE + units[0].nal] + Prefixed(Nals(units[1..][..|units| - 2]))
  {
    var front := units[..|units| - 1];
    assert front[0] == units[0] && front[1..] == units[1..][..|units| - 2];
    assert ([units[0].nal] + Nals(front[1..]))[1..] == Nals(front[1..]);
  }

  /**
   * Units joined by start codes of either length come out as they went in, all but the last, exactly
   * if no start code hides in one of them and none ends in zero in front of a short start code.
   */
  lemma {:induction false} SplitJoinedIff(units: seq<Unit>)
    requires units != []
    ensures Split(Joined(units)).0 == Prefixed(Nals(units[..|units| - 1])) <==> Splittable(units)
    ensures Splittable(units) ==> Split(Joined(units)).1 == Code(units[|units| - 1].long) + units[|units| - 1].nal
    decreases |units|
  {
    hide Parse, FrameIn, Clean, EndsInZero, Waits, Joined, Code, Prefixed, Nals;
    var b := Joined(units);
    if |units| == 1 {
      JoinedOne(units);
      LastUnit(units[0].long, units[0].nal);
      NoUnits();
      assert units[..0] == [];
    } else {
      var u, later := units[0], units[1..];
      var tail := Joined(later);
      JoinedShape(later);
      JoinedStep(units);
      FrontNals(units);
      SplitJoinedIff(later);
      TakeIff(u.long, u.nal, later[0].long, tail);
      assert b == Code(u.long) + (u.nal + tail);
      TakeStart(u.long, u.nal + tail);
      var s := Parse(b);
      if s.Some? {
        CutFrame(u.long, u.nal, tail, s.value.end);
        SplitStep(b);
        var expected := Prefixed(Nals(later[..|later| - 1]));
        SameHead(FrameIn(b, s.value), Split(b[s.value.end..]).0, START_CODE + u.nal, expected);
      }
    }
  }

  lemma NoUnits()
    ensures Prefixed(Nals([])) == []
  {
  }

  lemma SplitStep(b: seq<byte>)
    requires Parse(b).Some?
    ensures var s := Parse(b).value;
            Split(b) == ([FrameIn(b, s)] + Split(b[s.end..]).0, Split(b[s.end..]).1)
  {
    hide Parse, FrameIn;
  }

  lemma SameHead<T>(x: T, a: seq<T>, y: T, c: seq<T>)
    ensures [x] + a == [y] + c <==> x == y && a == c
  {
    assert ([x] + a)[0] == x && ([y] + c)[0] == y && ([x] + a)[1..] == a && ([y] + c)[1..] == c;
  }

  /** A list of units that is cut elsewhere than where it was joined. */
  lemma HiddenStartCode()
    ensures var units := [Unit(true, [0, 0, 1])] + [Unit(true, [9])];
            Split(Joined(units)).0 != Prefixed(Nals(units[..|units| - 1]))
  {
    hide Split, Joined, Prefixed, Nals;
    var units := [Unit(true, [0, 0, 1])] + [Unit(true, [9])];
    var nal := units[0].nal;
    assert nal[0] == 0 && nal[1] == 0 && nal[2] == 1;
    assert !Clean(nal);
    SplitJoinedIff(units);
  }

  /** A zero byte that is lost: the unit it ends stands in front of a three-byte start code. */
  lemma TrailingZeroLost()
    ensures var units := [Unit(true, [9, 0])] + [Unit(false, [9, 9])];
            Split(Joined(units)).0 != Prefixed(Nals(units[..|units| - 1]))
  {
    hide Split, Joined, Prefixed, Nals;
    var units := [Unit(true, [9, 0])] + [Unit(false, [9, 9])];
    assert EndsInZero(units[0].nal);
    SplitJoinedIff(units);
  }

  // ---------------------------------------------------------------- the probe queue

  /**
   * An open file: bytes read and not yet cut, the blocks still to be read, frames read while
   * probing, and the parameter sets seen last.
   */
  datatype Reader = Reader(
    buffer: seq<byte>, blocks: seq<seq<byte>>, probes: seq<seq<byte>>, sps: seq<byte>, pps: seq<byte>)

  function FrameType(frame: seq<byte>): nat { if |frame| > 4 then frame[4] % 32 else 0 }

  /** A frame remembers itself as the parameter set it is. */
  function Note(r: Reader, frame: seq<byte>): Reader {
    if FrameType(frame) == 7 then r.(sps := frame) else if FrameType(frame) == 8 then r.(pps := frame) else r
  }

  /** _GetFrame: reads blocks until a frame is complete or the file ends. */
  function Fetch(r: Reader): (Reader, Option<seq<byte>>)
    decreases |r.blocks|
  {
    var s := Parse(r.buffer);
    if s.Some? then
      var frame := FrameIn(r.buffer, s.value);
      (Note(r.(buffer := r.buffer[s.value.end..]), frame), Some(frame))
    else if r.blocks == [] then (r, None)
    else Fetch(r.(buffer := r.buffer + r.blocks[0], blocks := r.blocks[1..]))
  }

  /** The bytes of the file that are not yet cut. */
  function Ahead(r: Reader): seq<byte> { r.buffer + Flatten(r.blocks) }

  /** The frames still to be cut. */
  function Uncut(r: Reader): seq<seq<byte>> { Split(Ahead(r)).0 }

  /** The frames still to be handed to the caller. */
  function Coming(r: Reader): seq<seq<byte>> { r.probes + Uncut(r) }

  lemma {:induction false} FetchTakesNext(r: Reader)
    ensures var (r1, f) := Fetch(r);
            && r1.probes == r.probes
            && (f.None? ==> Uncut(r) == [] && Uncut(r1) == [] && r1.sps == r.sps && r1.pps == r.pps)
            && (f.Some? ==> Uncut(r) == [f.value] + Uncut(r1) && |Ahead(r1)| < |Ahead(r)|)
            && (f.Some? ==> (r1.sps, r1.pps) == (Note(r, f.value).sps, Note(r, f.value).pps))
    decreases |r.blocks|
  {
    hide Parse, FrameIn, FrameType;
    var s := Parse(r.buffer);
    if s.Some? {
      ParseExtends(r.buffer, Flatten(r.blocks));
    } else if r.blocks == [] {
      assert Ahead(r) == r.buffer;
    } else {
      var r1 := r.(buffer := r.buffer + r.blocks[0], blocks := r.blocks[1..]);
      assert Ahead(r1) == Ahead(r);
      FetchTakesNext(r1);
    }
  }

  /** H264Demux_GetConfig: probes until both parameter sets are known. */
  function Probe(r: Reader): (Reader, bool)
    decreases |Ahead(r)|
  {
    if r.sps != [] && r.pps != [] then (r, true)
    else
      var (r1, f) := Fetch(r);
      FetchTakesNext(r);
      if f.None? then (r1, false)
      else
        var r2 := r1.(probes := r1.probes + [f.value]);
        assert Ahead(r2) == Ahead(r1);
        Probe(r2)
  }

  /** H264Demux_GetFrame */
  function Get(r: Reader): (Reader, Option<seq<byte>>) {
    if r.probes != [] then (r.(probes := r.probes[1..]), Some(r.probes[0])) else Fetch(r)
  }

  /** Whether a parameter set of a type is among frames. */
  predicate Has(frames: seq<seq<byte>>, kind: nat) {
    exists f :: f in frames && FrameType(f) == kind
  }

  /** Probing takes nothing from the caller, and succeeds exactly if both parameter sets turn up. */
  lemma {:induction false} ProbeKeepsFrames(r: Reader)
    ensures var (r1, ok) := Probe(r);
            && Coming(r1) == Coming(r)
            && (ok <==> (r.sps != [] || Has(Uncut(r), 7)) && (r.pps != [] || Has(Uncut(r), 8)))
    decreases |Ahead(r)|
  {
    hide Fetch, FrameType, Uncut;
    if r.sps == [] || r.pps == [] {
      var (r1, f) := Fetch(r);
      FetchTakesNext(r);
      if f.Some? {
        var r2 := r1.(probes := r1.probes + [f.value]);
        assert Ahead(r2) == Ahead(r1);
        SameAhead(r1, r2);
        ProbeKeepsFrames(r2);
        assert Coming(r2) == Coming(r) by {
          assert r1.probes + [f.value] + Uncut(r1) == r1.probes + ([f.value] + Uncut(r1));
        }
        HasHead(f.value, Uncut(r1), 7);
        HasHead(f.value, Uncut(r1), 8);
        NoteType(r, f.value);
      } else {
        NoFrames(r, r1);
      }
    }
  }

  lemma SameAhead(a: Reader, b: Reader)
    requires Ahead(a) == Ahead(b)
    ensures Uncut(a) == Uncut(b)
  {
  }

  lemma NoFrames(r: Reader, r1: Reader)
    requires Uncut(r) == [] && Uncut(r1) == [] && r.probes == r1.probes
    ensures Coming(r) == Coming(r1) && !Has(Uncut(r), 7) && !Has(Uncut(r), 8)
  {
  }

  lemma HasHead(f: seq<byte>, fs: seq<seq<byte>>, kind: nat)
    ensures Has([f] + fs, kind) <==> FrameType(f) == kind || Has(fs, kind)
  {
    hide FrameType;
    assert f in [f] + fs;
    assert forall g :: g in fs ==> g in [f] + fs;
  }

  lemma NoteType(r: Reader, f: seq<byte>)
    ensures var n := Note(r, f);
            && (n.sps != [] <==> r.sps != [] || FrameType(f) == 7)
            && (n.pps != [] <==> r.pps != [] || FrameType(f) == 8)
  {
  }

  datatype Op = GetConfig | GetFrame

  /** A run of calls, with what each GetFrame returns. */
  function Run(r: Reader, ops: seq<Op>): (Reader, seq<Option<seq<byte>>>)
    decreases |ops|
  {
    if ops == [] then (r, [])
    else if ops[0].GetConfig? then Run(Probe(r).0, ops[1..])
    else
      var (r1, f) := Get(r);
      var (r2, fs) := Run(r1, ops[1..]);
      (r2, [f] + fs)
  }

  function GetFrames(ops: seq<Op>): nat {
    if ops == [] then 0 else (if ops[0].GetFrame? then 1 else 0) + GetFrames(ops[1..])
  }

  /** The first `n` answers when `frames` are to come: the frames in order, then none. */
  function Served(frames: seq<seq<byte>>, n: nat): seq<Option<seq<byte>>>
    decreases n
  {
    if n == 0 then []
    else if frames == [] then [None] + Served([], n - 1)
    else [Some(frames[0])] + Served(frames[1..], n - 1)
  }

  lemma GetTakesNext(r: Reader)
    ensures var (r1, f) := Get(r);
            && (Coming(r) == [] ==> f.None? && Coming(r1) == [])
            && (Coming(r) != [] ==> f == Some(Coming(r)[0]) && Coming(r1) == Coming(r)[1..])
  {
    hide Fetch, Uncut;
    if r.probes == [] {
      FetchTakesNext(r);
      assert Coming(r) == Uncut(r) && Coming(Fetch(r).0) == Uncut(Fetch(r).0);
    } else {
      var r1 := r.(probes := r.probes[1..]);
      SameAhead(r, r1);
      assert Coming(r)[1..] == r.probes[1..] + Uncut(r);
    }
  }

  /** However calls of GetConfig are mixed in, GetFrame returns the frames in order. */
  lemma {:induction false} AnyInterleaving(r: Reader, ops: seq<Op>)
    ensures Run(r, ops).1 == Served(Coming(r), GetFrames(ops))
    decreases |ops|
  {
    hide Probe, Get, Coming;
    if ops != [] {
      if ops[0].GetConfig? {
        ProbeKeepsFrames(r);
        AnyInterleaving(Probe(r).0, ops[1..]);
      } else {
        GetTakesNext(r);
        AnyInterleaving(Get(r).0, ops[1..]);
      }
    }
  }

  function Opened(blocks: seq<seq<byte>>): Reader { Reader([], blocks, [], [], []) }

  /**
   * Units written to a file that is read in any blocks with any mix of calls: the answers are
   * the units in order, all but the last.
   */
  lemma FileOfUnits(units: seq<Unit>, blocks: seq<seq<byte>>, ops: seq<Op>)
    requires units != [] && Splittable(units) && Flatten(blocks) == Joined(units)
    ensures Run(Opened(blocks), ops).1 == Served(Prefixed(Nals(units[..|units| - 1])), GetFrames(ops))
  {
    hide Split, Splittable, Joined, Run, Flatten;
    var r := Opened(blocks);
    assert Ahead(r) == Joined(units);
    SplitJoinedIff(units);
    AnyInterleaving(r, ops);
    assert Coming(r) == Prefixed(Nals(units[..|units| - 1]));
  }

  // ---------------------------------------------------------------- the parameter sets

  /** The type of the unit behind a four-byte start code. */
  predicate IsKind(frame: seq<byte>, kind: nat) { |frame| > 4 && frame[4] % 32 == kind }

  /** The last frame of a type, or `before` if there is none. */
  function LastOf(frames: seq<seq<byte>>, kind: nat, before: seq<byte>): seq<byte>
    decreases |frames|
  {
    if frames == [] then before
    else LastOf(frames[1..], kind, if IsKind(frames[0], kind) then frames[0] else before)
  }

  lemma {:induction false} LastOfIs(frames: seq<seq<byte>>, kind: nat, before: seq<byte>)
    ensures var last := LastOf(frames, kind, before);
            || (last == before && forall i :: 0 <= i < |frames| ==> !IsKind(frames[i], kind))
            || (exists i :: 0 <= i < |frames| && IsKind(frames[i], kind) && last == frames[i]
                            && forall j :: i < j < |frames| ==> !IsKind(frames[j], kind))
    decreases |frames|
  {
    hide IsKind;
    if frames != [] {
      var next := if IsKind(frames[0], kind) then frames[0] else before;
      LastOfIs(frames[1..], kind, next);
      assert forall i :: 1 <= i < |frames| ==> frames[i] == frames[1..][i - 1];
      var last := LastOf(frames, kind, before);
      if i :| 0 <= i < |frames[1..]| && IsKind(frames[1..][i], kind) && last == frames[1..][i]
              && forall j :: i < j < |frames[1..]| ==> !IsKind(frames[1..][j], kind) {
        assert IsKind(frames[i + 1], kind) && last == frames[i + 1];
      }
    }
  }

  lemma {:induction false} LastOfConcat(a: seq<seq<byte>>, b: seq<seq<byte>>, kind: nat, before: seq<byte>)
    ensures LastOf(a + b, kind, before) == LastOf(b, kind, LastOf(a, kind, before))
    decreases |a|
  {
    hide IsKind;
    if a == [] {
      assert a + b == b;
    } else {
      assert (a + b)[1..] == a[1..] + b;
      LastOfConcat(a[1..], b, kind, if IsKind(a[0], kind) then a[0] else before);
    }
  }

  /** Between the two states the frames `cut` were cut off the file, and their parameter sets remembered. */
  predicate Cut(r: Reader, cut: seq<seq<byte>>, r1: Reader) {
    Uncut(r) == cut + Uncut(r1) && r1.sps == LastOf(cut, 7, r.sps) && r1.pps == LastOf(cut, 8, r.pps)
  }

  lemma CutNothing(r: Reader, r1: Reader)
    requires Ahead(r) == Ahead(r1) && r.sps == r1.sps && r.pps == r1.pps
    ensures Cut(r, [], r1)
  {
    assert [] + Uncut(r1) == Uncut(r);
  }

  lemma CutMore(r: Reader, a: seq<seq<byte>>, r1: Reader, b: seq<seq<byte>>, r2: Reader)
    requires Cut(r, a, r1) && Cut(r1, b, r2)
    ensures Cut(r, a + b, r2)
  {
    hide Uncut;
    LastOfConcat(a, b, 7, r.sps);
    LastOfConcat(a, b, 8, r.pps);
    assert a + (b + Uncut(r2)) == a + b + Uncut(r2);
  }

  lemma FetchCuts(r: Reader)
    ensures var (r1, f) := Fetch(r); Cut(r, if f.Some? then [f.value] else [], r1)
  {
    hide Fetch, Uncut;
    FetchTakesNext(r);
    var (r1, f) := Fetch(r);
    if f.Some? {
      assert [f.value][1..] == [];
      assert LastOf([f.value], 7, r.sps) == Note(r, f.value).sps && LastOf([f.value], 8, r.pps) == Note(r, f.value).pps;
    } else {
      assert [] + Uncut(r1) == Uncut(r1);
    }
  }

  /**
   * GetConfig cuts frames until it has seen both parameter sets, and not one more; it leaves the
   * last of each, and puts the frames it cut in front of those still to come.
   */
  lemma {:induction false} ProbeCuts(r: Reader) returns (cut: seq<seq<byte>>)
    ensures var (r1, ok) := Probe(r);
            && Cut(r, cut, r1) && r1.probes == r.probes + cut
            && (ok <==> r1.sps != [] && r1.pps != []) && (!ok ==> Uncut(r1) == [])
    ensures cut != [] ==>
              var seen := cut[..|cut| - 1]; LastOf(seen, 7, r.sps) == [] || LastOf(seen, 8, r.pps) == []
    decreases |Ahead(r)|
  {
    hide Fetch, Uncut, LastOf;
    if r.sps != [] && r.pps != [] {
      cut := [];
      CutNothing(r, r);
      assert r.probes + [] == r.probes;
    } else {
      var (r1, f) := Fetch(r);
      FetchTakesNext(r);
      FetchCuts(r);
      if f.None? {
        cut := [];
        assert r.probes + [] == r.probes;
        LastOfNone(r.sps, r.pps);
      } else {
        var r2 := r1.(probes := r1.probes + [f.value]);
        assert Ahead(r2) == Ahead(r1);
        SameAhead(r1, r2);
        var more := ProbeCuts(r2);
        cut := [f.value] + more;
        assert Cut(r, [f.value], r2);
        CutMore(r, [f.value], r2, more, Probe(r2).0);
        assert r.probes + [f.value] + more == r.probes + cut;
        SeenBefore(r, f.value, more);
      }
    }
  }

  lemma LastOfNone(sps: seq<byte>, pps: seq<byte>)
    ensures LastOf([], 7, sps) == sps && LastOf([], 8, pps) == pps
  {
  }

  lemma SeenBefore(r: Reader, f: seq<byte>, more: seq<seq<byte>>)
    ensures var cut := [f] + more;
            var seen := cut[..|cut| - 1];
            && (more == [] ==> LastOf(seen, 7, r.sps) == r.sps && LastOf(seen, 8, r.pps) == r.pps)
            && (more != [] ==>
                && LastOf(seen, 7, r.sps) == LastOf(more[..|more| - 1], 7, LastOf([f], 7, r.sps))
                && LastOf(seen, 8, r.pps) == LastOf(more[..|more| - 1], 8, LastOf([f], 8, r.pps)))
  {
    var cut := [f] + more;
    var seen := cut[..|cut| - 1];
    if more == [] {
      assert seen == [];
    } else {
      assert seen == [f] + more[..|more| - 1];
      LastOfConcat([f], more[..|more| - 1], 7, r.sps);
      LastOfConcat([f], more[..|more| - 1], 8, r.pps);
    }
  }

  /** However the two calls are mixed, the parameter sets are the last ones among the frames cut so far. */
  lemma {:induction false} SetsAreLast(r: Reader, ops: seq<Op>) returns (cut: seq<seq<byte>>)
    ensures Cut(r, cut, Run(r, ops).0)
    decreases |ops|
  {
    hide Fetch, Probe, Cut;
    if ops == [] {
      cut := [];
      CutNothing(r, r);
    } else if ops[0].GetConfig? {
      var a := ProbeCuts(r);
      var b := SetsAreLast(Probe(r).0, ops[1..]);
      cut := a + b;
      CutMore(r, a, Probe(r).0, b, Run(r, ops).0);
    } else {
      var (r1, f) := Get(r);
      var a: seq<seq<byte>> := if r.probes == [] && f.Some? then [f.value] else [];
      if r.probes != [] {
        CutNothing(r, r1);
      } else {
        FetchCuts(r);
      }
      var b := SetsAreLast(r1, ops[1..]);
      cut := a + b;
      CutMore(r, a, r1, b, Run(r, ops).0);
    }
  }

  // ---------------------------------------------------------------- the object

  class H264File {
    var databuffer: seq<byte>
    /** What the reads of the file will still deliver, block by block. */
    var blocks: seq<seq<byte>>
    var frame: seq<byte>
    var probeframes: seq<seq<byte>>
    var sps: seq<byte>
    var pps: seq<byte>

    constructor (blocks: seq<seq<byte>>)
      ensures State() == Opened(blocks)
    {
      this.blocks := blocks;
      databuffer, frame, probeframes, sps, pps := [], [], [], [], [];
    }

    ghost function State(): Reader
      reads this
    {
      Reader(databuffer, blocks, probeframes, sps, pps)
    }

    /** One of the two scans of H264ParseFrame. */
    static method Scan(b: seq<byte>, from: nat, stop: bool) returns (r: Option<nat>)
      ensures r == Find(b, from, stop)
    {
      var i := from;
      while i + 4 < |b|
        invariant from <= i && Find(b, i, stop) == Find(b, from, stop)
        decreases |b| - i
      {
        if b[i] == 0 && b[i + 1] == 0 && (b[i + 2] == 1 || (stop && b[i + 2] == 0 && b[i + 3] == 1)) {
          return Some(i);
        }
        i := i + 1;
      }
      r := None;
    }

    static method ParseFrame(b: seq<byte>) returns (r: Option<Span>)
      ensures r == Parse(b)
    {
      hide Find;
      var first := Scan(b, 0, false);
      if first.None? {
        return None;
      }
      var last := Scan(b, first.value + 3, true);
      if last.None? {
        return None;
      }
      r := Some(Span(first.value + 3, last.value));
    }

    method ReadOneFrame() returns (ret: int)
      modifies this`frame, this`databuffer
      ensures var s := Parse(old(databuffer));
              && (s.None? ==> ret == -1 && frame == old(frame) && databuffer == old(databuffer))
              && (s.Some? ==> ret >= 0 && frame == FrameIn(old(databuffer), s.value))
              && (s.Some? ==> databuffer == old(databuffer)[s.value.end..])
    {
      hide Parse;
      var s := ParseFrame(databuffer);
      if s.None? {
        return -1;
      }
      frame := [];
      frame := frame + START_CODE;
      frame := frame + databuffer[s.value.start..s.value.end];
      databuffer := databuffer[s.value.end..];
      ret := s.value.end - s.value.start;
    }

    method ReadData() returns (ret: int)
      modifies this`databuffer, this`blocks
      ensures old(blocks) == [] ==> ret == -1 && databuffer == old(databuffer) && blocks == []
      ensures old(blocks) != [] ==>
        ret == 0 && databuffer == old(databuffer) + old(blocks)[0] && blocks == old(blocks)[1..]
    {
      if blocks == [] {
        return -1;
      }
      databuffer, blocks := databuffer + blocks[0], blocks[1..];
      ret := 0;
    }

    /** _GetFrame */
    method FetchFrame() returns (ret: int)
      modifies this`databuffer, this`blocks, this`frame, this`sps, this`pps
      ensures var (r, f) := Fetch(old(State()));
              && State() == r && (f.None? ==> ret == -1 && frame == old(frame))
              && (f.Some? ==> ret == 0 && frame == f.value)
    {
      hide Parse, FrameIn;
      ghost var r := State();
      ret := ReadOneFrame();
      while ret < 0
        invariant probeframes == old(probeframes) && sps == old(sps) && pps == old(pps)
        invariant Fetch(r) == Fetch(old(State()))
        invariant ret < 0 ==> State() == r && Parse(databuffer).None? && frame == old(frame)
        invariant ret >= 0 ==> var s := Parse(r.buffer);
                    s.Some? && frame == FrameIn(r.buffer, s.value) && State() == r.(buffer := r.buffer[s.value.end..])
        decreases |blocks|, -ret
      {
        ret := ReadData();
        if ret < 0 {
          return -1;
        }
        r := State();
        ret := ReadOneFrame();
      }
      var kind := if |frame| > 4 then frame[4] % 32 else 0;
      if kind == 7 {
        sps := frame;
      } else if kind == 8 {
        pps := frame;
      }
      ret := 0;
    }

    /** H264Demux_GetConfig; the caller then finds the parameter sets in `sps` and `pps`. */
    method GetConfig() returns (ret: int)
      modifies this
      ensures (State(), ret == 0) == Probe(old(State())) && ret in {0, -1}
      ensures Coming(State()) == Coming(old(State()))
    {
      hide Fetch, Coming;
      ProbeKeepsFrames(State());
      while sps == [] || pps == []
        invariant Probe(State()) == Probe(old(State()))
        decreases |Ahead(State())|
      {
        ghost var r := State();
        FetchTakesNext(r);
        ret := FetchFrame();
        assert State() == Fetch(r).0;
        assert ret < 0 <==> Fetch(r).1.None?;
        if ret < 0 {
          return -1;
        }
        ghost var r1 := State();
        probeframes := probeframes + [frame];
        assert Ahead(State()) == Ahead(r1);
      }
      ret := 0;
    }

    /** H264Demux_GetFrame */
    method GetFrame() returns (ret: int)
      modifies this
      ensures var (r, f) := Get(old(State()));
              State() == r && (f.None? ==> ret == -1) && (f.Some? ==> ret == 0 && frame == f.value)
    {
      hide Fetch;
      if probeframes != [] {
        frame := probeframes[0];
        probeframes := probeframes[1..];
        return 0;
      }
      ret := FetchFrame();
    }
  }
}
