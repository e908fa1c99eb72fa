/** What a peer of the server has been handed over: across partial socket writes, and across different chunk lengths. */
module RtmpDelivery {
  import opened Bytes
  import opened RtmpReceive
  import opened RtmpSend
  import opened RtmpClient
  import opened RtmpStale

  // ---------------------------------------------------------------- partial writes

  /** Nothing is half received. */
  predicate Idle(r: Receiver, chunkLen: nat) {
    r.Valid() && r.buf == [] && r.chunkLen == chunkLen && forall slot <- r.slots :: slot.buf == []
  }

  /** A message that travels whole and does not change the chunk length. */
  predicate Plain(t: (nat, Message)) {
    t.0 < CHANNELS && Carried(t.1) && t.1.kind != MSG_SET_CHUNK
  }

  predicate AllPlain(ms: seq<(nat, Message)>) {
    ms == [] || (Plain(ms[0]) && AllPlain(ms[1..]))
  }

  /** The bytes of messages sent one after the other. */
  function Wire(ms: seq<(nat, Message)>, c: nat): seq<byte>
    requires c > 0
  {
    if ms == [] then [] else Encoding(ms[0].0, ms[0].1, c) + Wire(ms[1..], c)
  }

  /** How many messages are complete in the first `n` bytes. */
  function Whole(ms: seq<(nat, Message)>, c: nat, n: nat): (k: nat)
    requires c > 0
    ensures k <= |ms|
  {
    if ms == [] || |Encoding(ms[0].0, ms[0].1, c)| > n then 0
    else 1 + Whole(ms[1..], c, n - |Encoding(ms[0].0, ms[0].1, c)|)
  }

  /** These are the messages whose last byte is among the first `n`. */
  lemma {:induction false} WholeIs(ms: seq<(nat, Message)>, c: nat, n: nat)
    requires c > 0
    ensures var k := Whole(ms, c, n);
            |Wire(ms[..k], c)| <= n && (k < |ms| ==> n < |Wire(ms[..k + 1], c)|)
    decreases |ms|
  {
    hide Encoding;
    var k := Whole(ms, c, n);
    if ms != [] {
      var size := |Encoding(ms[0].0, ms[0].1, c)|;
      if size > n {
        assert ms[..1][0] == ms[0];
      } else {
        WholeIs(ms[1..], c, n - size);
        assert ms[..k][0] == ms[0] && ms[..k][1..] == ms[1..][..k - 1];
        if k < |ms| {
          assert ms[..k + 1][0] == ms[0] && ms[..k + 1][1..] == ms[1..][..k];
        }
      }
    }
  }

  /** A part of a chunk is left in the buffer. */
  lemma PartOfChunk(r: Receiver, ch: nat, m: Message, pos: nat, more: seq<byte>, handlers: Handlers)
    requires r.Valid() && ch < CHANNELS && Framable(m) && pos < |m.body| && r.chunkLen > 0
    requires if pos == 0 then r.slots[ch].buf == [] else r.slots[ch] == PartSlot(m, pos)
    requires r.buf != [] && more != [] && r.buf + more == ChunkAt(ch, m, pos, r.chunkLen)
    ensures var (r1, o) := Step(r, handlers); o == NeedMore && r1.handled == r.handled
  {
    hide Step, ChunkAt, Deliver;
    var whole := r.Append(more);
    assert whole.buf + [] == whole.buf;
    StepOnChunk(whole, ch, m, pos, [], handlers);
    StepExtends(r, more, handlers);
    DeliverKeepsBuf(r, ch, m, pos, handlers);
    NeedMoreHandsNothing(r, handlers);
  }

  lemma DeliverKeepsBuf(r: Receiver, ch: nat, m: Message, pos: nat, handlers: Handlers)
    requires r.Valid() && ch < CHANNELS
    ensures forall r1: Receiver :: r1.Valid() ==> Deliver(r1, ch, handlers).0.buf == r1.buf
  {
  }

  lemma NeedMoreHandsNothing(r: Receiver, handlers: Handlers)
    requires r.Valid() && r.buf != []
    ensures Step(r, handlers).1 == NeedMore ==> Step(r, handlers).0.handled == r.handled
  {
    hide TooShort, ReadFields, ChunkSize, LoadBe24, Absorb;
  }

  /** A part of a message is received without an exception and without being handed over. */
  lemma {:induction false} PartOfMessage(r: Receiver, ch: nat, m: Message, pos: nat, more: seq<byte>,
                                         handlers: Handlers)
    requires r.Valid() && ch < CHANNELS && Framable(m) && pos < |m.body| && r.chunkLen > 0
    requires if pos == 0 then r.slots[ch].buf == [] else r.slots[ch] == PartSlot(m, pos)
    requires more != [] && r.buf + more == Flatten(ChunksFrom(ch, m, pos, r.chunkLen))
    ensures var (r1, o) := Run(r, handlers); o == NeedMore && r1.handled == r.handled
    decreases |m.body| - pos
  {
    hide Step, ChunkAt, ChunksFrom, Flatten;
    var c := r.chunkLen;
    var chunk, after := ChunkAt(ch, m, pos, c), pos + Min(|m.body| - pos, c);
    var later := ChunksFrom(ch, m, after, c);
    ChunksFromStep(ch, m, pos, c);
    FlattenCons(chunk, later);
    if r.buf != [] {
      if |r.buf| < |chunk| {
        CutInFirst(r.buf, more, chunk, Flatten(later));
        PartOfChunk(r, ch, m, pos, chunk[|r.buf|..], handlers);
      } else {
        CutBehindFirst(r.buf, more, chunk, Flatten(later));
        var rest := r.buf[|chunk|..];
        StepOnChunk(r, ch, m, pos, rest, handlers);
        if after == |m.body| {
          NoBytes();
          assert false;
        }
        PartOfMessage(r.(slots := r.slots[ch := PartSlot(m, after)], buf := rest), ch, m, after, more, handlers);
      }
    }
  }

  lemma NoBytes()
    ensures Flatten<byte>([]) == []
  {
  }

  lemma CutInFirst(a: seq<byte>, b: seq<byte>, x: seq<byte>, y: seq<byte>)
    requires a + b == x + y && |a| < |x|
    ensures a + x[|a|..] == x && x[|a|..] != []
  {
    assert a == (a + b)[..|a|] == x[..|a|];
  }

  lemma CutBehindFirst(a: seq<byte>, b: seq<byte>, x: seq<byte>, y: seq<byte>)
    requires a + b == x + y && |a| >= |x|
    ensures a == x + a[|x|..] && a[|x|..] + b == y
  {
    assert a[..|x|] == (a + b)[..|x|] == x;
    assert a[|x|..] + b == (a + b)[|x|..] == y;
  }

  /** One message more, whole. */
  lemma OneMessage(r: Receiver, c: nat, t: (nat, Message), handlers: Handlers)
    requires c > 0 && Idle(r, c) && Plain(t) && NeverThrows(handlers)
    ensures var (r1, o) := Feed(r, Encoding(t.0, t.1, c), handlers);
            o == NeedMore && Idle(r1, c) && r1.handled == r.handled + [t.1]
  {
    hide Run, ChunksFrom;
    var r0 := r.Append(Encoding(t.0, t.1, c));
    assert r.slots[t.0] in r.slots;
    assert r0.buf == Flatten(ChunksFrom(t.0, t.1, 0, c));
    RunChunks(r0, t.0, t.1, 0, handlers);
  }

  /** Of a prefix of what was sent, exactly the complete messages are handed over. */
  lemma {:induction false} PrefixDelivers(r: Receiver, c: nat, ms: seq<(nat, Message)>, part: seq<byte>,
                                          handlers: Handlers)
    requires c > 0 && Idle(r, c) && AllPlain(ms) && NeverThrows(handlers) && part <= Wire(ms, c)
    ensures var (r1, o) := Feed(r, part, handlers);
            o == NeedMore && r1.handled == r.handled + Untag(ms[..Whole(ms, c, |part|)])
    decreases |ms|
  {
    hide Run, Encoding, Untag;
    NothingUntagged(r.handled);
    var k := Whole(ms, c, |part|);
    if ms == [] {
      NothingRead(r, handlers);
    } else {
      var bytes, later := Encoding(ms[0].0, ms[0].1, c), Wire(ms[1..], c);
      if |part| < |bytes| {
        assert part == bytes[..|part|];
        HalfMessage(r, c, ms[0], part, handlers);
      } else {
        var rest := part[|bytes|..];
        assert part == bytes + rest && rest <= later;
        OneMessage(r, c, ms[0], handlers);
        TwoReadsAreOne(r, bytes, rest, handlers);
        var r1 := Feed(r, bytes, handlers).0;
        PrefixDelivers(r1, c, ms[1..], rest, handlers);
        assert ms[..k] == [ms[0]] + ms[1..][..k - 1];
        UntagCons(ms[0], ms[1..][..k - 1]);
      }
    }
  }

  lemma NothingRead(r: Receiver, handlers: Handlers)
    requires r.Valid() && r.buf == []
    ensures Feed(r, [], handlers) == (r, NeedMore)
  {
    assert r.buf + [] == r.buf;
  }

  lemma UntagCons(t: (nat, Message), later: seq<(nat, Message)>)
    ensures Untag([t] + later) == [t.1] + Untag(later)
  {
    assert ([t] + later)[1..] == later;
  }

  lemma HalfMessage(r: Receiver, c: nat, t: (nat, Message), part: seq<byte>, handlers: Handlers)
    requires c > 0 && Idle(r, c) && Plain(t)
    requires |part| < |Encoding(t.0, t.1, c)| && part == Encoding(t.0, t.1, c)[..|part|]
    ensures var (r1, o) := Feed(r, part, handlers); o == NeedMore && r1.handled == r.handled
  {
    hide Run, ChunksFrom, Flatten;
    var bytes := Encoding(t.0, t.1, c);
    assert r.slots[t.0] in r.slots;
    assert part + bytes[|part|..] == bytes;
    PartOfMessage(r.Append(part), t.0, t.1, 0, bytes[|part|..], handlers);
  }

  /** The messages sent in a run, each with its channel. */
  function Sends(events: seq<SendEvent>): seq<(nat, Message)> {
    if events == [] then []
    else (if events[0].Send? then [(events[0].ch, events[0].m)] else []) + Sends(events[1..])
  }

  /** Every send of a run uses the chunk length `c`. */
  predicate Uniform(events: seq<SendEvent>, c: nat) {
    events == [] || ((events[0].Send? ==> events[0].chunkLen == c) && Uniform(events[1..], c))
  }

  lemma {:induction false} TrafficIsWire(events: seq<SendEvent>, c: nat)
    requires c > 0 && Uniform(events, c)
    ensures AllEnd(events) && Traffic(events) == Wire(Sends(events), c)
    decreases |events|
  {
    hide Encoding;
    if events != [] {
      TrafficIsWire(events[1..], c);
      if events[0].Send? {
        assert Sends(events)[1..] == Sends(events[1..]);
      } else {
        assert [] + Sends(events[1..]) == Sends(events[1..]);
        assert [] + Traffic(events[1..]) == Traffic(events[1..]);
      }
    }
  }

  /**
   * A whole run of rtmp_send calls and socket writes of any size, whose bytes the peer reads in any
   * pieces with the same chunk length: the peer has handed over exactly the messages whose last byte
   * the socket has taken, in order, and has not thrown.
   */
  lemma SocketDelivery(r: Receiver, c: nat, events: seq<SendEvent>, segments: seq<seq<byte>>, handlers: Handlers)
    requires c > 0 && Idle(r, c) && Uniform(events, c) && AllPlain(Sends(events)) && NeverThrows(handlers)
    requires (TrafficIsWire(events, c); Flatten(segments) == SendRun(Outbound([], [], 0), events).taken)
    ensures var (r1, o) := FeedAll(r, segments, handlers);
            var k := Whole(Sends(events), c, |Flatten(segments)|);
            o == NeedMore && r1.handled == r.handled + Untag(Sends(events)[..k])
  {
    hide Run, Feed, FeedAll, Wire, Whole, Untag, Sends, SendRun, Traffic, Flatten;
    TrafficIsWire(events, c);
    var o := SendRun(Outbound([], [], 0), events);
    QueueConservation(Outbound([], [], 0), events);
    assert o.taken + o.queue == Wire(Sends(events), c);
    PrefixDelivers(r, c, Sends(events), o.taken, handlers);
    IdleSettled(r, handlers);
    SegmentationIndependence(r, segments, handlers);
  }

  lemma IdleSettled(r: Receiver, handlers: Handlers)
    requires r.Valid() && r.buf == []
    ensures Settled(r, handlers)
  {
  }

  // ---------------------------------------------------------------- different chunk lengths

  /** Every message of `n` bytes that is cut with `c` arrives at every idle reader that expects `d`. */
  ghost predicate AllArrive(ch: nat, n: nat, c: nat, d: nat, handlers: Handlers)
    requires c > 0
  {
    forall r: Receiver, m ::
      && r.Valid() && r.buf == [] && r.chunkLen == d && ch < CHANNELS && r.slots[ch].buf == []
      && Carried(m) && |m.body| == n ==>
        Feed(r, Encoding(ch, m, c), handlers).0.handled == r.handled + [m]
  }

  /** A message in one chunk looks the same for every chunk length that holds it. */
  lemma SingleChunk(ch: nat, m: Message, c: nat, d: nat)
    requires m.body != [] && |m.body| <= c && |m.body| <= d
    ensures Encoding(ch, m, c) == Encoding(ch, m, d)
  {
    hide ChunkHeader;
    ChunksFromStep(ch, m, 0, c);
    ChunksFromStep(ch, m, 0, d);
  }

  lemma ArriveIfSame(ch: nat, n: nat, c: nat, d: nat, handlers: Handlers)
    requires ch < CHANNELS && n > 0 && c > 0 && d > 0 && NeverThrows(handlers) && (c == d || n <= Min(c, d))
    ensures AllArrive(ch, n, c, d, handlers)
  {
    hide Run, ChunksFrom, ChunkAt;
    forall r: Receiver, m |
      r.Valid() && r.buf == [] && r.chunkLen == d && r.slots[ch].buf == [] && Carried(m) && |m.body| == n
      ensures Feed(r, Encoding(ch, m, c), handlers).0.handled == r.handled + [m]
    {
      if c != d {
        SingleChunk(ch, m, c, d);
      }
      var r0 := r.Append(Encoding(ch, m, d));
      assert r0.buf == Flatten(ChunksFrom(ch, m, 0, d));
      RunChunks(r0, ch, m, 0, handlers);
    }
  }

  /** The other channel a continuation header may name. */
  function Other(ch: nat): (x: nat)
    ensures x != ch && x < CHANNELS
  {
    if ch == 0 then 1 else 0
  }

  /** The message that shows it: every byte of its body is a continuation header of a channel that is not in use. */
  function Probe(ch: nat, n: nat): Message { Message(8, 0, 0, seq(n, _ => 192 + Other(ch))) }

  predicate OnlyHeaders(s: seq<byte>, ch: nat) {
    forall b <- s :: b == 192 + ch || b == 192 + Other(ch)
  }

  lemma {:induction false} StreamBytes(ch: nat, n: nat, pos: nat, c: nat)
    requires ch < CHANNELS && c > 0 && 0 < pos <= n
    ensures var s := Flatten(ChunksFrom(ch, Probe(ch, n), pos, c));
            OnlyHeaders(s, ch) && |s| >= n - pos && (pos < n ==> s[0] == 192 + ch)
    decreases n - pos
  {
    hide ChunksFrom, Flatten;
    var m := Probe(ch, n);
    if pos == n {
      AllSent(ch, m, c);
    } else {
      var after := pos + Min(n - pos, c);
      StreamBytes(ch, n, after, c);
      ChunksBytes(ch, m, pos, c);
      var later := Flatten(ChunksFrom(ch, m, after, c));
      assert OnlyHeaders(m.body[pos..after] + later, ch);
    }
  }

  lemma AllSent(ch: nat, m: Message, c: nat)
    requires c > 0
    ensures Flatten(ChunksFrom(ch, m, |m.body|, c)) == []
  {
  }

  /** What follows the first header of the message. */
  lemma FirstStream(ch: nat, n: nat, c: nat) returns (rest: seq<byte>)
    requires ch < CHANNELS && c > 0 && n > 0
    ensures Encoding(ch, Probe(ch, n), c) == FirstHeader(ch, Probe(ch, n)) + rest
    ensures OnlyHeaders(rest, ch) && |rest| >= n && (n > c ==> |rest| > n && rest[c] == 192 + ch)
    ensures forall i :: 0 <= i < Min(n, c) ==> rest[i] == 192 + Other(ch)
  {
    hide ChunksFrom, Flatten, FirstHeader, Encoding;
    var m, size := Probe(ch, n), Min(n, c);
    EncodingHead(ch, m, c);
    var later := Flatten(ChunksFrom(ch, m, size, c));
    StreamBytes(ch, n, size, c);
    rest := m.body[..size] + later;
    TailLonger(ch, n, size, c);
  }

  lemma TailLonger(ch: nat, n: nat, pos: nat, c: nat)
    requires ch < CHANNELS && c > 0 && 0 < pos <= n
    ensures pos < n ==> |Flatten(ChunksFrom(ch, Probe(ch, n), pos, c))| > n - pos
  {
    hide ChunksFrom, Flatten;
    if pos < n {
      var after := pos + Min(n - pos, c);
      ChunksBytes(ch, Probe(ch, n), pos, c);
      StreamBytes(ch, n, after, c);
    }
  }

  lemma HeadersBehind(s: seq<byte>, k: nat, ch: nat)
    requires k <= |s| && OnlyHeaders(s, ch)
    ensures OnlyHeaders(s[k..], ch)
  {
    assert forall b :: b in s[k..] ==> b in s;
  }

  /** A body byte read where a header is expected: the channel it names is not in use. */
  lemma StrayHeader(r: Receiver, x: nat)
    requires r.Valid() && x < CHANNELS && r.slots[x].len == 0 && r.buf != [] && r.buf[0] == 192 + x
    ensures Refused(r)
  {
  }

  /** A reader with a header byte inside the body it has received so far. */
  predicate Spoilt(r: Receiver, ch: nat, n: nat, c: nat) {
    && r.Valid() && ch < CHANNELS && r.slots[Other(ch)].len == 0 && OnlyHeaders(r.buf, ch)
    && r.slots[ch].kind == 8 && r.slots[ch].len == n < 0x100_0000
    && c < |r.slots[ch].buf| < n && r.slots[ch].buf[c] == 192 + ch
  }

  /** It never hands over the message as sent. */
  lemma {:induction false} SpoiltRun(r: Receiver, ch: nat, n: nat, c: nat, handlers: Handlers)
    requires Spoilt(r, ch, n, c) && NeverThrows(handlers)
    ensures Run(r, handlers).0.handled != r.handled + [Probe(ch, n)]
    decreases |r.buf|
  {
    hide Run, Step;
    var m := Probe(ch, n);
    NoneNext(r.handled, m);
    if r.buf == [] {
      EmptyRun(r, handlers);
    } else if r.buf[0] == 192 + Other(ch) {
      StrayHeader(r, Other(ch));
      RefusedRun(r, handlers);
    } else {
      assert r.buf[0] in r.buf;
      var k := SpoiltStep(r, ch, n, c, handlers);
      var (r1, o) := Step(r, handlers);
      if o == NeedMore {
        StopsHere(r, handlers);
      } else if k < n {
        RunStep(r, r1, handlers);
        SpoiltRun(r1, ch, n, c, handlers);
      } else {
        RunStep(r, r1, handlers);
        RunOnlyAdds(r1, handlers);
        var x: Message :| r1.handled == r.handled + [x] && |x.body| == n && x.body[c] == 192 + ch;
        assert m.body[c] != x.body[c];
        OnlyOneNext(r.handled, Run(r1, handlers).0.handled, m, x);
      }
    }
  }

  lemma EmptyRun(r: Receiver, handlers: Handlers)
    requires r.Valid() && r.buf == []
    ensures Run(r, handlers) == (r, NeedMore)
  {
  }

  lemma StopsHere(r: Receiver, handlers: Handlers)
    requires r.Valid() && r.buf != [] && Step(r, handlers).1 == NeedMore
    ensures Run(r, handlers).0.handled == r.handled
  {
    hide Step;
    NeedMoreHandsNothing(r, handlers);
  }

  /** One more chunk on the spoilt body, which is then `k` bytes long. */
  lemma SpoiltStep(r: Receiver, ch: nat, n: nat, c: nat, handlers: Handlers) returns (k: nat)
    requires Spoilt(r, ch, n, c) && NeverThrows(handlers) && r.buf != [] && r.buf[0] == 192 + ch
    ensures var (r1, o) := Step(r, handlers);
            && o != Throw && k <= n
            && (o == Progress && k < n ==> Spoilt(r1, ch, n, c) && r1.handled == r.handled && |r1.buf| < |r.buf|)
            && (o == Progress && k == n ==>
                  exists x: Message :: r1.handled == r.handled + [x] && |x.body| == n && x.body[c] == 192 + ch)
  {
    hide LoadBe32;
    var slot := r.slots[ch];
    var size := ChunkSize(slot, r.chunkLen);
    k := |slot.buf| + size;
    if 1 + size <= |r.buf| {
      var body := slot.buf + r.buf[1..1 + size];
      assert body[c] == 192 + ch;
      HeadersBehind(r.buf, 1 + size, ch);
      var (r1, o) := Step(r, handlers);
      if k == n {
        assert r1.handled == r.handled + [slot.(buf := body).ToMessage()];
      }
    }
  }

  /** The reader once it has taken its first chunk. */
  lemma FirstChunkRead(ch: nat, n: nat, c: nat, d: nat, handlers: Handlers) returns (r: Receiver, r1: Receiver)
    requires ch < CHANNELS && 0 < n < 0x100_0000 && c > 0 && d > 0
    ensures r == Fresh(d).Append(Encoding(ch, Probe(ch, n), c)) && r.buf != []
    ensures var k := Min(n, d);
            && r1.Valid() && r1.handled == [] && r1.tried == []
            && r1.slots[Other(ch)].len == 0 && OnlyHeaders(r1.buf, ch)
            && (k < n && k < c ==> r1.buf != [] && r1.buf[0] == 192 + Other(ch))
            && Step(r, handlers) == (if k == n then Deliver(r1, ch, handlers) else (r1, Progress))
            && exists got ::
                 && |got| == k && r1.slots[ch] == FilledSlot(Probe(ch, n), got)
                 && (c < k ==> got[c] == 192 + ch)
  {
    hide Step, Encoding, FirstHeader, Deliver;
    var m, k := Probe(ch, n), Min(n, d);
    var rest := FirstStream(ch, n, c);
    r := Fresh(d).Append(Encoding(ch, m, c));
    assert r.buf == FirstHeader(ch, m) + rest;
    StepOnto(r, ch, m, 0, rest, handlers);
    assert [] + rest[..k] == rest[..k];
    HeadersBehind(rest, k, ch);
    r1 := r.(slots := r.slots[ch := FilledSlot(m, rest[..k])], buf := rest[k..]);
  }

  /** With different chunk lengths and a message that takes more than one chunk of either, it does not arrive. */
  lemma ProbeLost(ch: nat, n: nat, c: nat, d: nat, handlers: Handlers)
    requires ch < CHANNELS && 0 < n < 0x100_0000 && c > 0 && d > 0 && c != d && n > Min(c, d) && NeverThrows(handlers)
    ensures Feed(Fresh(d), Encoding(ch, Probe(ch, n), c), handlers).0.handled != [Probe(ch, n)]
  {
    hide Run, Step, Encoding, Deliver, Refused, OnlyHeaders;
    var m, k := Probe(ch, n), Min(n, d);
    var r, r1 := FirstChunkRead(ch, n, c, d, handlers);
    var got :| |got| == k && r1.slots[ch] == FilledSlot(m, got) && (c < k ==> got[c] == 192 + ch);
    assert r.handled == [] && [] + [m] == [m];
    if k == n {
      var x := r1.slots[ch].ToMessage();
      assert m.body[c] != x.body[c];
      RunAfterDeliver(r, r1, ch, handlers);
      OnlyOneNext([], Run(r, handlers).0.handled, m, x);
    } else {
      RunStep(r, r1, handlers);
      if d < c {
        StrayHeader(r1, Other(ch));
        RefusedRun(r1, handlers);
      } else {
        SpoiltRun(r1, ch, n, c, handlers);
      }
    }
  }

  /**
   * One chunk length serves both directions of the server, so a SET_CHUNK message of a peer changes
   * how the server cuts what it sends to that peer. Read with another chunk length, every message of
   * `n` bytes arrives if and only if it takes a single chunk of both lengths.
   */
  lemma ArriveAcrossIff(ch: nat, n: nat, c: nat, d: nat, handlers: Handlers)
    requires ch < CHANNELS && 0 < n < 0x100_0000 && c > 0 && d > 0 && NeverThrows(handlers)
    ensures AllArrive(ch, n, c, d, handlers) <==> c == d || n <= Min(c, d)
  {
    hide Feed, Encoding;
    if c == d || n <= Min(c, d) {
      ArriveIfSame(ch, n, c, d, handlers);
    } else {
      ProbeLost(ch, n, c, d, handlers);
      assert [] + [Probe(ch, n)] == [Probe(ch, n)];
      assert Carried(Probe(ch, n)) && |Probe(ch, n).body| == n;
    }
  }
}
