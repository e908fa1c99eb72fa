/**
 * Pictures of several NAL units, as other senders make them (RFC 6184 section 5): all packets of a
 * picture have one time stamp, and each unit is a packet of its own or a list of fragments.
 */
module RtpPicture {
  import opened Bytes
  import opened RtpH264
  import opened RtpLayout

  // ---------------------------------------------------------------- what is sent

  datatype Sent = Single(unit: seq<byte>) | Fragmented(nal: byte, chunks: seq<seq<byte>>) {
    predicate Valid() {
      match this
      case Single(unit) => |unit| >= 2 && unit[0] % 32 != 28
      case Fragmented(_, chunks) => chunks != []
    }

    /** Units of other types are dropped by the reader, unless they are fragmented. */
    predicate Kept() {
      Fragmented? || (unit != [] && unit[0] % 32 in {1, 5, 6, 7, 8})
    }

    function Whole(): seq<byte> {
      match this
      case Single(unit) => unit
      case Fragmented(nal, chunks) => [nal] + Flatten(chunks)
    }

    function Payloads(): seq<seq<byte>> {
      match this
      case Single(unit) => [unit]
      case Fragmented(nal, chunks) => FuPayloads(nal, true, chunks)
    }
  }

  function FuPayloads(nal: byte, first: bool, chunks: seq<seq<byte>>): seq<seq<byte>>
    decreases |chunks|
  {
    if chunks == [] then []
    else [FuBytes(nal, first, |chunks| == 1) + chunks[0]] + FuPayloads(nal, false, chunks[1..])
  }

  predicate AllValid(units: seq<Sent>) {
    units == [] || (units[0].Valid() && AllValid(units[1..]))
  }

  function AllPayloads(units: seq<Sent>): seq<seq<byte>> {
    if units == [] then [] else units[0].Payloads() + AllPayloads(units[1..])
  }

  function KeptOf(units: seq<Sent>): seq<Sent> {
    if units == [] then [] else (if units[0].Kept() then [units[0]] else []) + KeptOf(units[1..])
  }

  function Wholes(units: seq<Sent>): seq<seq<byte>> {
    if units == [] then [] else [units[0].Whole()] + Wholes(units[1..])
  }

  /** A packet of the picture, whatever its sequence number and marker. */
  predicate Carries(p: seq<byte>, timestamp: nat, ssrc: nat, payload: seq<byte>) {
    |p| >= 12 && Number(p, 4) == timestamp && Number(p, 8) == ssrc && p[12..] == payload
  }

  predicate AllCarry(ps: seq<seq<byte>>, timestamp: nat, ssrc: nat, payloads: seq<seq<byte>>) {
    |ps| == |payloads| && forall i :: 0 <= i < |ps| ==> Carries(ps[i], timestamp, ssrc, payloads[i])
  }

  // ---------------------------------------------------------------- what is put together

  /**
   * The units that are kept, each behind a start code; but of a fragmented unit that is not the first,
   * only what follows its first byte.
   */
  function Assembled(begun: bool, kept: seq<Sent>): seq<byte>
    decreases |kept|
  {
    if kept == [] then []
    else (if begun && kept[0].Fragmented? then Flatten(kept[0].chunks) else START_CODE + kept[0].Whole())
         + Assembled(true, kept[1..])
  }

  predicate LongEnough(payloads: seq<seq<byte>>) {
    payloads == [] || (|payloads[0]| >= 2 && LongEnough(payloads[1..]))
  }

  function AppendAll(buffer: seq<byte>, payloads: seq<seq<byte>>): seq<byte>
    requires LongEnough(payloads)
    decreases |payloads|
  {
    if payloads == [] then buffer else AppendAll(Append(buffer, payloads[0]), payloads[1..])
  }

  predicate Ready(d: Demux, timestamp: nat, ssrc: nat) {
    d.buffer != [] ==> d.timestamp == timestamp && d.ssrc == ssrc
  }

  lemma OnCarried(d: Demux, p: seq<byte>, timestamp: nat, ssrc: nat, payload: seq<byte>)
    requires Ready(d, timestamp, ssrc) && Carries(p, timestamp, ssrc, payload) && |payload| >= 2
    ensures OnPacket(d, p) == (Demux(Append(d.buffer, payload), timestamp, ssrc), [])
  {
    hide LoadBe32, Append, Number;
    NumberIs(p);
  }

  /** Packets with the time stamp of the picture that is being put together call nobody back. */
  lemma {:induction false} OnAllCarried(d: Demux, ps: seq<seq<byte>>, timestamp: nat, ssrc: nat,
                                        payloads: seq<seq<byte>>)
    requires Ready(d, timestamp, ssrc) && AllCarry(ps, timestamp, ssrc, payloads) && LongEnough(payloads)
    ensures var (d1, calls) := OnPackets(d, ps);
            calls == [] && Ready(d1, timestamp, ssrc) && d1.buffer == AppendAll(d.buffer, payloads)
    decreases |ps|
  {
    hide OnPacket, Append, Carries;
    if ps != [] {
      OnCarried(d, ps[0], timestamp, ssrc, payloads[0]);
      var d1 := OnPacket(d, ps[0]).0;
      OnAllCarried(d1, ps[1..], timestamp, ssrc, payloads[1..]);
    }
  }

  lemma {:induction false} AppendConcat(buffer: seq<byte>, a: seq<seq<byte>>, b: seq<seq<byte>>)
    requires LongEnough(a) && LongEnough(b)
    ensures LongEnough(a + b) && AppendAll(buffer, a + b) == AppendAll(AppendAll(buffer, a), b)
    decreases |a|
  {
    hide Append;
    if a == [] {
      assert a + b == b;
    } else {
      assert (a + b)[0] == a[0] && (a + b)[1..] == a[1..] + b;
      AppendConcat(Append(buffer, a[0]), a[1..], b);
    }
  }

  /** The fragments of a unit on a buffer that is not empty add their bytes and nothing else. */
  lemma {:induction false} LaterChunks(buffer: seq<byte>, nal: byte, first: bool, chunks: seq<seq<byte>>)
    requires buffer != []
    ensures LongEnough(FuPayloads(nal, first, chunks))
    ensures AppendAll(buffer, FuPayloads(nal, first, chunks)) == buffer + Flatten(chunks)
    decreases |chunks|
  {
    if chunks == [] {
      assert buffer + [] == buffer;
    } else {
      hide Append, AppendAll, FuPayloads, Flatten, LongEnough, FuBytes;
      FuStep(nal, first, chunks);
      FuAppended(buffer, nal, first, |chunks| == 1, chunks[0]);
      LaterChunks(buffer + chunks[0], nal, false, chunks[1..]);
      AppendStep(buffer, FuBytes(nal, first, |chunks| == 1) + chunks[0], FuPayloads(nal, false, chunks[1..]));
      FlattenStep(chunks);
      assert buffer + chunks[0] + Flatten(chunks[1..]) == buffer + (chunks[0] + Flatten(chunks[1..]));
    }
  }

  /** What a unit adds to the buffer. */
  function Added(begun: bool, u: Sent): seq<byte> {
    if !u.Kept() then []
    else if begun && u.Fragmented? then Flatten(u.chunks)
    else START_CODE + u.Whole()
  }

  lemma UnitAppended(buffer: seq<byte>, u: Sent)
    requires u.Valid()
    ensures LongEnough(u.Payloads())
    ensures AppendAll(buffer, u.Payloads()) == buffer + Added(buffer != [], u)
  {
    match u {
      case Single(unit) =>
        assert [unit][1..] == [];
        assert AppendAll(buffer, [unit]) == Append(buffer, unit);
        assert buffer + [] == buffer && buffer + START_CODE + unit == buffer + (START_CODE + unit);
      case Fragmented(nal, chunks) =>
        if buffer != [] {
          LaterChunks(buffer, nal, true, chunks);
        } else {
          FirstChunk(nal, chunks);
        }
    }
  }

  lemma FirstChunk(nal: byte, chunks: seq<seq<byte>>)
    requires chunks != []
    ensures LongEnough(FuPayloads(nal, true, chunks))
    ensures AppendAll([], FuPayloads(nal, true, chunks)) == START_CODE + ([nal] + Flatten(chunks))
  {
    hide Append, AppendAll, FuPayloads, Flatten, LongEnough, FuBytes;
    var first, later := FuBytes(nal, true, |chunks| == 1) + chunks[0], FuPayloads(nal, false, chunks[1..]);
    FuStep(nal, true, chunks);
    FuAppended([], nal, true, |chunks| == 1, chunks[0]);
    var start := START_CODE + [nal] + chunks[0];
    LaterChunks(start, nal, false, chunks[1..]);
    AppendStep([], first, later);
    FlattenStep(chunks);
    StartFirst(nal, chunks[0], Flatten(chunks[1..]));
  }

  lemma FuAppended(buffer: seq<byte>, nal: byte, first: bool, last: bool, chunk: seq<byte>)
    ensures Append(buffer, FuBytes(nal, first, last) + chunk) ==
            (if buffer == [] then START_CODE + [nal] else buffer) + chunk
  {
    hide Append;
    FragmentPayload(buffer, nal, first, last, chunk);
  }

  lemma FuStep(nal: byte, first: bool, chunks: seq<seq<byte>>)
    requires chunks != []
    ensures FuPayloads(nal, first, chunks) ==
            [FuBytes(nal, first, |chunks| == 1) + chunks[0]] + FuPayloads(nal, false, chunks[1..])
  {
    hide FuBytes;
  }

  lemma AppendStep(buffer: seq<byte>, first: seq<byte>, later: seq<seq<byte>>)
    requires |first| >= 2 && LongEnough(later)
    ensures LongEnough([first] + later) && AppendAll(buffer, [first] + later) == AppendAll(Append(buffer, first), later)
  {
    hide Append;
    assert ([first] + later)[1..] == later;
  }

  lemma FlattenStep(chunks: seq<seq<byte>>)
    requires chunks != []
    ensures Flatten(chunks) == chunks[0] + Flatten(chunks[1..])
  {
  }

  lemma StartFirst(nal: byte, chunk: seq<byte>, later: seq<byte>)
    ensures START_CODE + [nal] + chunk + later == START_CODE + ([nal] + (chunk + later))
  {
  }

  lemma {:induction false} UnitsAppended(buffer: seq<byte>, units: seq<Sent>)
    requires AllValid(units)
    ensures LongEnough(AllPayloads(units))
    ensures AppendAll(buffer, AllPayloads(units)) == buffer + Assembled(buffer != [], KeptOf(units))
    decreases |units|
  {
    hide AppendAll, LongEnough, Sent.Payloads, Sent.Kept, Sent.Valid, Added, Assembled, KeptOf;
    if units == [] {
      NothingAppended(buffer);
    } else {
      var u, rest := units[0], units[1..];
      UnitAppended(buffer, u);
      NotEmptyAfter(buffer, u);
      UnitsAppended(buffer + Added(buffer != [], u), rest);
      AppendConcat(buffer, u.Payloads(), AllPayloads(rest));
      KeptStep(buffer != [], units);
      AddedTwice(buffer, Added(buffer != [], u), Assembled(buffer != [] || u.Kept(), KeptOf(rest)));
    }
  }

  lemma NothingAppended(buffer: seq<byte>)
    ensures LongEnough([]) && AppendAll(buffer, []) == buffer
    ensures buffer + Assembled(buffer != [], KeptOf([])) == buffer
  {
  }

  lemma NotEmptyAfter(buffer: seq<byte>, u: Sent)
    ensures buffer + Added(buffer != [], u) != [] <==> buffer != [] || u.Kept()
  {
    hide Sent.Kept, Sent.Whole, Flatten;
    assert |START_CODE + u.Whole()| > 0;
  }

  lemma AddedTwice(a: seq<byte>, b: seq<byte>, c: seq<byte>)
    ensures a + b + c == a + (b + c)
  {
  }

  lemma KeptStep(begun: bool, units: seq<Sent>)
    requires units != []
    ensures Assembled(begun, KeptOf(units)) ==
            Added(begun, units[0]) + Assembled(begun || units[0].Kept(), KeptOf(units[1..]))
  {
    hide Sent.Kept, Sent.Whole, Flatten;
    var u, rest := units[0], KeptOf(units[1..]);
    if u.Kept() {
      assert KeptOf(units) == [u] + rest && ([u] + rest)[1..] == rest;
    } else {
      assert KeptOf(units) == [] + rest == rest;
    }
  }

  /** What the reader holds after all packets of a picture, which began with nothing. */
  lemma PictureHeld(d: Demux, ps: seq<seq<byte>>, timestamp: nat, ssrc: nat, units: seq<Sent>)
    requires d.buffer == [] && AllValid(units) && AllCarry(ps, timestamp, ssrc, AllPayloads(units))
    ensures var (d1, calls) := OnPackets(d, ps); calls == [] && d1.buffer == Assembled(false, KeptOf(units))
  {
    hide OnPackets, AllPayloads, AppendAll, LongEnough, AllCarry;
    UnitsAppended([], units);
    OnAllCarried(d, ps, timestamp, ssrc, AllPayloads(units));
    assert [] + Assembled(false, KeptOf(units)) == Assembled(false, KeptOf(units));
  }

  // ---------------------------------------------------------------- when that is the picture

  /** A unit is fragmented behind another one. */
  predicate FragmentedBehind(begun: bool, kept: seq<Sent>)
    decreases |kept|
  {
    kept != [] && ((begun && kept[0].Fragmented?) || FragmentedBehind(true, kept[1..]))
  }

  lemma {:induction false} AssembledLength(begun: bool, kept: seq<Sent>)
    ensures |Assembled(begun, kept)| <= |Flatten(Prefixed(Wholes(kept)))|
    ensures Assembled(begun, kept) == Flatten(Prefixed(Wholes(kept))) <==> !FragmentedBehind(begun, kept)
    ensures FragmentedBehind(begun, kept) ==> |Assembled(begun, kept)| < |Flatten(Prefixed(Wholes(kept)))|
    decreases |kept|
  {
    hide Sent.Whole;
    if kept != [] {
      AssembledLength(true, kept[1..]);
      var whole, later := START_CODE + kept[0].Whole(), Prefixed(Wholes(kept[1..]));
      PrefixedStep(kept);
      var head := if begun && kept[0].Fragmented? then Flatten(kept[0].chunks) else whole;
      LostBytes(kept[0]);
      if head == whole && Assembled(begun, kept) == Flatten(Prefixed(Wholes(kept))) {
        assert Assembled(true, kept[1..]) == Assembled(begun, kept)[|whole|..];
        assert Flatten(later) == Flatten(Prefixed(Wholes(kept)))[|whole|..];
      }
    }
  }

  lemma LostBytes(u: Sent)
    ensures u.Fragmented? ==> |Flatten(u.chunks)| + 5 == |START_CODE + u.Whole()|
  {
  }

  lemma PrefixedStep(kept: seq<Sent>)
    requires kept != []
    ensures Flatten(Prefixed(Wholes(kept))) ==
            START_CODE + kept[0].Whole() + Flatten(Prefixed(Wholes(kept[1..])))
  {
    hide Sent.Whole;
    var ws := Wholes(kept);
    assert ws[1..] == Wholes(kept[1..]);
    FlattenCons(START_CODE + ws[0], Prefixed(ws[1..]));
  }

  /**
   * The picture comes together as the units that are kept, each behind its start code, exactly if
   * none but the first of them is fragmented.
   */
  lemma PictureWholeIff(d: Demux, ps: seq<seq<byte>>, timestamp: nat, ssrc: nat, units: seq<Sent>)
    requires d.buffer == [] && AllValid(units) && AllCarry(ps, timestamp, ssrc, AllPayloads(units))
    ensures OnPackets(d, ps).0.buffer == Flatten(Prefixed(Wholes(KeptOf(units)))) <==>
            !FragmentedBehind(false, KeptOf(units))
  {
    hide OnPackets, AllPayloads, AllCarry, Assembled, FragmentedBehind;
    PictureHeld(d, ps, timestamp, ssrc, units);
    AssembledLength(false, KeptOf(units));
  }

  /** A parameter set and a fragmented slice: the slice loses its start code and its first byte. */
  lemma SliceBehindSet(d: Demux, ps: seq<seq<byte>>, timestamp: nat, ssrc: nat, pps: seq<byte>, nal: byte,
                       chunks: seq<seq<byte>>)
    requires d.buffer == [] && |pps| >= 2 && pps[0] % 32 == 8 && chunks != []
    requires AllCarry(ps, timestamp, ssrc, AllPayloads([Single(pps)] + [Fragmented(nal, chunks)]))
    ensures OnPackets(d, ps).0.buffer == START_CODE + pps + Flatten(chunks)
  {
    hide OnPackets, AllCarry, AllPayloads, Assembled, KeptOf, Flatten;
    var a, b := Single(pps), Fragmented(nal, chunks);
    var units := [a] + [b];
    assert units[1..] == [b] && [b][1..] == [];
    assert AllValid([b]) && AllValid(units);
    PictureHeld(d, ps, timestamp, ssrc, units);
    KeptStep(false, units);
    KeptStep(true, [b]);
    NothingKept();
    assert Flatten(chunks) + [] == Flatten(chunks);
  }

  lemma NothingKept()
    ensures Assembled(true, KeptOf([])) == []
  {
  }
}
