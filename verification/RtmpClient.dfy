/** A client connection of the RTMP server: the two halves together, updated in place. */
module RtmpClient {
  import opened Bytes
  import opened RtmpReceive
  import opened RtmpSend

  /** Addition of a 32-bit unsigned counter. */
  function Add32(a: nat, n: nat): (r: nat)
    ensures r < TWO32
  {
    (a + n) % TWO32
  }

  lemma Add32Zero(a: nat)
    requires a < TWO32
    ensures Add32(a, 0) == a
  {
  }

  lemma Add32Add32(a: nat, n: nat, k: nat)
    ensures Add32(Add32(a, n), k) == Add32(a, n + k)
  {
  }

  const DEFAULT_CHUNK_LEN := 128
  const MAX_WRITE := 4096

  // ---------------------------------------------------------------- one message, there and back

  lemma {:induction false} RunChunks(r: Receiver, ch: nat, m: Message, pos: nat, handlers: Handlers)
    requires r.Valid() && ch < CHANNELS && Carried(m) && pos < |m.body| && r.chunkLen > 0
    requires if pos == 0 then r.slots[ch].buf == [] else r.slots[ch] == PartSlot(m, pos)
    requires r.buf == Flatten(ChunksFrom(ch, m, pos, r.chunkLen)) && NeverThrows(handlers)
    ensures var (r1, o) := Run(r, handlers);
            && o == NeedMore && r1.buf == [] && r1.handled == r.handled + [m]
            && r1.chunkLen == (if m.kind == MSG_SET_CHUNK then LoadBe32(m.body) else r.chunkLen)
            && r1.readSeq == (if m.kind == MSG_BYTES_READ then LoadBe32(m.body) else r.readSeq)
            && r1.slots == r.slots[ch := FilledSlot(m, [])]
    decreases |m.body| - pos
  {
    hide Step, ChunkAt, LoadBe32;
    var after := pos + Min(|m.body| - pos, r.chunkLen);
    var rest := Flatten(ChunksFrom(ch, m, after, r.chunkLen));
    StepOnChunk(r, ch, m, pos, rest, handlers);
    var r1 := r.(slots := r.slots[ch := PartSlot(m, after)], buf := rest);
    assert r.buf != [] by { assert |ChunkAt(ch, m, pos, r.chunkLen)| > 0 by { ChunkNotEmpty(ch, m, pos, r.chunkLen); } }
    if after < |m.body| {
      RunChunks(r1, ch, m, after, handlers);
    } else {
      assert m.body[..|m.body|] == m.body;
    }
  }

  /**
   * The two control messages, by their numbers: type 1 sets the chunk length and type 3 the count
   * of bytes read, each to the big-endian number in its first four bytes; no other type does.
   */
  lemma ControlMessages(r: Receiver, ch: nat, m: Message, handlers: Handlers)
    requires r.Valid() && r.buf == [] && ch < CHANNELS && r.slots[ch].buf == [] && r.chunkLen > 0
    requires Carried(m) && NeverThrows(handlers)
    ensures var r1 := Feed(r, Encoding(ch, m, r.chunkLen), handlers).0;
            && r1.handled == r.handled + [m]
            && (if m.kind == 1 then |m.body| >= 4 && r1.chunkLen == FirstNumber(m.body) else r1.chunkLen == r.chunkLen)
            && (if m.kind == 3 then |m.body| >= 4 && r1.readSeq == FirstNumber(m.body) else r1.readSeq == r.readSeq)
  {
    hide Run, ChunksFrom;
    var r0 := r.Append(Encoding(ch, m, r.chunkLen));
    assert r0.buf == Flatten(ChunksFrom(ch, m, 0, r.chunkLen));
    RunChunks(r0, ch, m, 0, handlers);
  }

  function FirstNumber(body: seq<byte>): nat
    requires |body| >= 4
  {
    (body[0] as int) * 0x100_0000 + (body[1] as int) * 0x1_0000 + (body[2] as int) * 0x100 + body[3]
  }

  lemma ChunkNotEmpty(ch: nat, m: Message, pos: nat, chunkLen: nat)
    requires pos <= |m.body|
    ensures ChunkAt(ch, m, pos, chunkLen) != []
  {
    assert |ChunkHeader(ch, m, pos)| > 0;
  }

  /** Headers keep only 24 bits of a timestamp. */
  lemma {:induction false} TimestampTruncated(ch: nat, m: Message, t: nat, pos: nat, chunkLen: nat)
    requires pos <= |m.body| && chunkLen > 0 && t % 0x100_0000 == m.timestamp % 0x100_0000
    ensures ChunksFrom(ch, m, pos, chunkLen) == ChunksFrom(ch, m.(timestamp := t), pos, chunkLen)
    decreases |m.body| - pos
  {
    if pos < |m.body| {
      TimestampTruncated(ch, m, t, pos + Min(|m.body| - pos, chunkLen), chunkLen);
      Be24Congruence(m.timestamp, t);
    }
  }

  lemma Be24Congruence(a: nat, b: nat)
    requires a % 0x100_0000 == b % 0x100_0000
    ensures Be24(a) == Be24(b)
  {
    Be24RoundTrip(a);
    Be24RoundTrip(b);
    hide Be24;
    var x, y := Be24(a), Be24(b);
    assert LoadBe24(x) == LoadBe24(y);
    assert x[2] == y[2] && LoadBe16(x) == LoadBe16(y);
  }

  /** A message that rtmp_send is given arrives unchanged exactly if the header format carries it. */
  lemma ArrivesIffCarried(r: Receiver, ch: nat, m: Message, handlers: Handlers)
    requires SlotsOk(r) && r.buf == [] && ch < CHANNELS && r.slots[ch].buf == [] && r.chunkLen > 0
    requires NeverThrows(handlers)
    ensures Feed(r, Encoding(ch, m, r.chunkLen), handlers).0.handled == r.handled + [m] <==> Carried(m)
  {
    hide Run, ChunksFrom;
    var r0 := r.Append(Encoding(ch, m, r.chunkLen));
    assert r0.buf == Encoding(ch, m, r.chunkLen);
    OnlyDeliverable(r0, handlers);
    if Carried(m) {
      RunChunks(r0, ch, m, 0, handlers);
    } else if Run(r0, handlers).0.handled == r.handled + [m] {
      assert m in Run(r0, handlers).0.handled[|r.handled|..];
      LateTimestamp(r0, ch, m, handlers);
    }
  }

  /** A message that has everything but a timestamp the header can hold arrives with another one, or not. */
  lemma LateTimestamp(r: Receiver, ch: nat, m: Message, handlers: Handlers)
    requires r.Valid() && ch < CHANNELS && r.slots[ch].buf == [] && r.chunkLen > 0
    requires NeverThrows(handlers) && Deliverable(m) && m.timestamp >= EXT_TIMESTAMP
    requires r.buf == Encoding(ch, m, r.chunkLen)
    ensures Run(r, handlers).0.handled != r.handled + [m]
  {
    hide Run, ChunksFrom, Flatten;
    var m1 := m.(timestamp := m.timestamp % 0x100_0000);
    TimestampTruncated(ch, m, m1.timestamp, 0, r.chunkLen);
    if m1.timestamp == EXT_TIMESTAMP {
      ExtTimestampThrows(r, ch, m, handlers);
    } else {
      RunChunks(r, ch, m1, 0, handlers);
      assert (r.handled + [m1])[|r.handled|] != (r.handled + [m])[|r.handled|];
    }
  }

  lemma EncodingHead(ch: nat, m: Message, chunkLen: nat)
    requires m.body != [] && chunkLen > 0
    ensures var size := Min(|m.body|, chunkLen);
            Encoding(ch, m, chunkLen) ==
              FirstHeader(ch, m) + (m.body[..size] + Flatten(ChunksFrom(ch, m, size, chunkLen)))
  {
    hide FirstHeader;
    var size := Min(|m.body|, chunkLen);
    var cs := ChunksFrom(ch, m, 0, chunkLen);
    assert cs[1..] == ChunksFrom(ch, m, size, chunkLen);
    assert cs[0] == FirstHeader(ch, m) + m.body[..size];
  }

  lemma ExtTimestampThrows(r: Receiver, ch: nat, m: Message, handlers: Handlers)
    requires r.Valid() && ch < CHANNELS && r.slots[ch].buf == [] && r.chunkLen > 0
    requires Deliverable(m) && m.timestamp % 0x100_0000 == 0xff_ffff
    requires r.buf == Encoding(ch, m, r.chunkLen)
    ensures Run(r, handlers).1 == Throw && Run(r, handlers).0.handled == r.handled
  {
    hide FirstHeader, Encoding, ChunksFrom, Flatten, Step;
    var size := Min(|m.body|, r.chunkLen);
    EncodingHead(ch, m, r.chunkLen);
    ExtHeaderRefused(r, ch, m, m.body[..size] + Flatten(ChunksFrom(ch, m, size, r.chunkLen)), handlers);
  }

  lemma ExtHeaderRefused(r: Receiver, ch: nat, m: Message, rest: seq<byte>, handlers: Handlers)
    requires r.Valid() && ch < CHANNELS && r.slots[ch].buf == [] && Deliverable(m)
    requires m.timestamp % 0x100_0000 == EXT_TIMESTAMP && |rest| >= Min(|m.body|, r.chunkLen)
    requires r.buf == FirstHeader(ch, m) + rest
    ensures Step(r, handlers).1 == Throw && Step(r, handlers).0.handled == r.handled
  {
    hide LoadBe24, LoadLe32, FirstHeader, Absorb;
    FirstHeaderFields(ch, m, rest);
  }

  // ---------------------------------------------------------------- termination of rtmp_send

  /** `pos` after `n` iterations of the loop of rtmp_send. */
  function LoopPos(len: nat, chunkLen: nat, n: nat): (pos: nat)
    ensures pos <= len
  {
    if n == 0 then 0
    else
      var pos := LoopPos(len, chunkLen, n - 1);
      pos + Min(len - pos, chunkLen)
  }

  lemma {:induction false} LoopProgress(len: nat, chunkLen: nat, n: nat)
    ensures if chunkLen == 0 then LoopPos(len, chunkLen, n) == 0 else LoopPos(len, chunkLen, n) >= Min(len, n)
  {
    if n > 0 {
      LoopProgress(len, chunkLen, n - 1);
    }
  }

  /** The loop of rtmp_send ends exactly if there is something to send a chunk of. */
  lemma SendTerminatesIff(len: nat, chunkLen: nat)
    ensures (exists n: nat :: LoopPos(len, chunkLen, n) == len) <==> chunkLen > 0 || len == 0
  {
    LoopProgress(len, chunkLen, len);
    forall n: nat ensures chunkLen == 0 ==> LoopPos(len, chunkLen, n) == 0 {
      LoopProgress(len, chunkLen, n);
    }
    assert chunkLen > 0 || len == 0 ==> LoopPos(len, chunkLen, len) == len;
  }

  const ZERO_CHUNK := Message(MSG_SET_CHUNK, 0, 0, [0, 0, 0, 0])

  /**
   * A peer that sends a SET_CHUNK message of zero brings the client into the state in which the
   * loop of every later rtmp_send with a body stays at its first byte.
   */
  lemma PeerStopsSending(r: Receiver, ch: nat, handlers: Handlers, len: nat, n: nat)
    requires r.Valid() && r.buf == [] && ch < CHANNELS && r.slots[ch].buf == [] && r.chunkLen > 0
    requires NeverThrows(handlers) && len > 0
    ensures var (r1, o) := Feed(r, Encoding(ch, ZERO_CHUNK, r.chunkLen), handlers);
            o == NeedMore && r1.chunkLen == 0 && LoopPos(len, r1.chunkLen, n) == 0
  {
    hide Step, ChunksFrom;
    var m := ZERO_CHUNK;
    var r0 := r.Append(Encoding(ch, m, r.chunkLen));
    assert r0.buf == Flatten(ChunksFrom(ch, m, 0, r.chunkLen));
    RunChunks(r0, ch, m, 0, handlers);
    assert LoadBe32(m.body) == 0;
    LoopProgress(len, 0, n);
  }

  // ---------------------------------------------------------------- the send queue over whole runs

  /** The sending half of a client; `taken` is what the socket has accepted so far. */
  datatype Outbound = Outbound(taken: seq<byte>, queue: seq<byte>, writtenSeq: nat)

  /** The answer of the socket to one send call: bytes taken, or an error. */
  datatype Answer = Took(n: nat) | Again | Broken

  /** `chunkLen` is the chunk length in force at the time of the call; the peer may change it in between. */
  datatype SendEvent = Send(ch: nat, m: Message, chunkLen: nat, answer: Answer) | Poll(answer: Answer) {
    predicate Ends() { Send? ==> chunkLen > 0 }
  }

  predicate AllEnd(events: seq<SendEvent>) {
    events == [] || (events[0].Ends() && AllEnd(events[1..]))
  }

  function Flush(o: Outbound, answer: Answer): Outbound {
    match answer
    case Took(n) =>
      var k := Min(n, Min(|o.queue|, MAX_WRITE));
      o.(taken := o.taken + o.queue[..k], queue := o.queue[k..])
    case _ => o
  }

  function SendStep(o: Outbound, e: SendEvent): Outbound
    requires e.Ends()
  {
    match e
    case Poll(answer) => Flush(o, answer)
    case Send(ch, m, chunkLen, answer) =>
      var bytes := Encoding(ch, m, chunkLen);
      Flush(o.(queue := o.queue + bytes, writtenSeq := Add32(o.writtenSeq, |bytes|)), answer)
  }

  function SendRun(o: Outbound, events: seq<SendEvent>): Outbound
    requires AllEnd(events)
    decreases |events|
  {
    if events == [] then o else SendRun(SendStep(o, events[0]), events[1..])
  }

  function EventBytes(e: SendEvent): seq<byte>
    requires e.Ends()
  {
    if e.Send? then Encoding(e.ch, e.m, e.chunkLen) else []
  }

  /** The concatenated encodings of everything sent in a run. */
  function Traffic(events: seq<SendEvent>): seq<byte>
    requires AllEnd(events)
  {
    if events == [] then [] else EventBytes(events[0]) + Traffic(events[1..])
  }

  lemma StepConserves(o: Outbound, e: SendEvent)
    requires e.Ends() && o.writtenSeq < TWO32
    ensures var o1 := SendStep(o, e);
            && o1.taken + o1.queue == o.taken + o.queue + EventBytes(e)
            && o1.writtenSeq == Add32(o.writtenSeq, |EventBytes(e)|)
  {
    hide Encoding;
    var bytes := EventBytes(e);
    FlushConserves(o.(queue := o.queue + bytes, writtenSeq := Add32(o.writtenSeq, |bytes|)), e.answer);
    assert o.queue + [] == o.queue;
    assert o.taken + (o.queue + bytes) == o.taken + o.queue + bytes;
  }

  /** No byte is lost, duplicated or reordered, whatever the socket takes, and the count agrees. */
  lemma {:induction false} QueueConservation(o: Outbound, events: seq<SendEvent>)
    requires AllEnd(events) && o.writtenSeq < TWO32
    ensures var o1 := SendRun(o, events);
            && o1.taken + o1.queue == o.taken + o.queue + Traffic(events)
            && o1.writtenSeq == Add32(o.writtenSeq, |Traffic(events)|)
    decreases |events|
  {
    hide SendStep, EventBytes;
    if events == [] {
      assert o.taken + o.queue + [] == o.taken + o.queue;
    } else {
      StepConserves(o, events[0]);
      QueueConservation(SendStep(o, events[0]), events[1..]);
      var bytes, later := EventBytes(events[0]), Traffic(events[1..]);
      assert o.taken + o.queue + bytes + later == o.taken + o.queue + (bytes + later);
      Add32Add32(o.writtenSeq, |bytes|, |later|);
    }
  }

  lemma FlushConserves(o: Outbound, answer: Answer)
    ensures var o1 := Flush(o, answer); o1.taken + o1.queue == o.taken + o.queue && o1.writtenSeq == o.writtenSeq
  {
    if answer.Took? {
      var k := Min(answer.n, Min(|o.queue|, MAX_WRITE));
      assert o.queue == o.queue[..k] + o.queue[k..];
    }
  }

  /** A socket that takes whatever it is offered empties the queue at 4096 bytes a call. */
  lemma {:induction false} PollsDrain(o: Outbound, n: nat, events: seq<SendEvent>)
    requires n >= 4096 && AllEnd(events) && forall e <- events :: e == Poll(Took(n))
    ensures var k := Min(4096 * |events|, |o.queue|);
            SendRun(o, events) == o.(taken := o.taken + o.queue[..k], queue := o.queue[k..])
    decreases |events|
  {
    hide Flush;
    if events == [] {
      assert o.taken + [] == o.taken;
    } else {
      var o1, first := SendStep(o, events[0]), Min(4096, |o.queue|);
      assert events[0] in events && forall e <- events[1..] :: e in events;
      OnePoll(o, n);
      PollsDrain(o1, n, events[1..]);
      var k := Min(4096 * |events[1..]|, |o1.queue|);
      TakenTwice(o.taken, o.queue, first, k);
    }
  }

  lemma OnePoll(o: Outbound, n: nat)
    requires n >= 4096
    ensures var k := Min(4096, |o.queue|);
            Flush(o, Took(n)) == o.(taken := o.taken + o.queue[..k], queue := o.queue[k..])
  {
  }

  lemma TakenTwice(taken: seq<byte>, queue: seq<byte>, a: nat, b: nat)
    requires a + b <= |queue|
    ensures taken + queue[..a] + queue[a..][..b] == taken + queue[..a + b] && queue[a..][b..] == queue[a + b..]
  {
    assert queue[..a] + queue[a..][..b] == queue[..a + b];
  }

  // ---------------------------------------------------------------- the client object

  /** What one iteration of the loop of rtmp_send appends. */
  function Piece(ch: nat, m: Message, pos: nat, chunkLen: nat): seq<byte>
    requires pos <= |m.body|
  {
    (if pos > 0 then [ch % 64 + 192] else []) + m.body[pos..pos + Min(|m.body| - pos, chunkLen)]
  }

  lemma EmptyPiece(ch: nat, m: Message)
    ensures Piece(ch, m, 0, 0) == []
  {
  }

  /** What the loop of rtmp_send still appends once it has reached body position `pos`. */
  function LoopOutput(ch: nat, m: Message, pos: nat, chunkLen: nat): seq<byte>
    requires pos <= |m.body| && chunkLen > 0
    decreases |m.body| - pos
  {
    if pos == |m.body| then []
    else Piece(ch, m, pos, chunkLen) + LoopOutput(ch, m, pos + Min(|m.body| - pos, chunkLen), chunkLen)
  }

  lemma LoopStep(ch: nat, m: Message, pos: nat, chunkLen: nat, out: seq<byte>)
    requires pos < |m.body| && chunkLen > 0
    ensures var after := pos + Min(|m.body| - pos, chunkLen);
            out + LoopOutput(ch, m, pos, chunkLen) ==
              out + Piece(ch, m, pos, chunkLen) + LoopOutput(ch, m, after, chunkLen)
  {
    hide Piece;
  }

  lemma LoopDone(ch: nat, m: Message, chunkLen: nat, out: seq<byte>)
    requires chunkLen > 0
    ensures out + LoopOutput(ch, m, |m.body|, chunkLen) == out
  {
  }

  lemma {:induction false} LoopOutputTail(ch: nat, m: Message, pos: nat, chunkLen: nat)
    requires 0 < pos <= |m.body| && chunkLen > 0
    ensures LoopOutput(ch, m, pos, chunkLen) == Flatten(ChunksFrom(ch, m, pos, chunkLen))
    decreases |m.body| - pos
  {
    hide FirstHeader;
    if pos < |m.body| {
      var after := pos + Min(|m.body| - pos, chunkLen);
      LoopOutputTail(ch, m, after, chunkLen);
      var cs := ChunksFrom(ch, m, pos, chunkLen);
      assert cs[1..] == ChunksFrom(ch, m, after, chunkLen);
      assert cs[0] == [ch % 64 + 192] + m.body[pos..after];
    }
  }

  lemma LoopOutputWhole(ch: nat, m: Message, chunkLen: nat)
    requires chunkLen > 0
    ensures FirstHeader(ch, m) + LoopOutput(ch, m, 0, chunkLen) == Encoding(ch, m, chunkLen)
  {
    hide FirstHeader;
    if m.body == [] {
      FlattenOne(FirstHeader(ch, m));
    } else {
      EncodingHead(ch, m, chunkLen);
      hide Encoding;
      var size := Min(|m.body|, chunkLen);
      LoopOutputTail(ch, m, size, chunkLen);
      assert [] + m.body[0..size] == m.body[..size];
    }
  }

  /** The answer of the socket to one recv call. */
  datatype Got = Data(data: seq<byte>) | NotYet | Ended | Failed

  class Client {
    var buf: seq<byte>
    var sendQueue: seq<byte>
    var messages: array<Slot>
    var chunkLen: nat
    var writtenSeq: nat
    var readSeq: nat
    var tried: seq<Message>
    var handled: seq<Message>
    ghost var taken: seq<byte>

    ghost predicate Valid()
      reads this
    {
      messages.Length == CHANNELS && writtenSeq < TWO32
    }

    ghost function Inbound(): (r: Receiver)
      requires Valid()
      reads this, messages
      ensures r.Valid()
    {
      Receiver(buf, messages[..], chunkLen, readSeq, tried, handled)
    }

    ghost function Outgoing(): Outbound
      reads this
    {
      Outbound(taken, sendQueue, writtenSeq)
    }

    constructor ()
      ensures Valid() && fresh(messages)
      ensures SlotsOk(Inbound()) && Inbound() == Fresh(DEFAULT_CHUNK_LEN)
      ensures buf == [] && tried == [] && handled == [] && chunkLen == 128
      ensures Outgoing() == Outbound([], [], 0)
    {
      buf, sendQueue := [], [];
      chunkLen, writtenSeq, readSeq := DEFAULT_CHUNK_LEN, 0, 0;
      tried, handled, taken := [], [], [];
      messages := new Slot[CHANNELS](i => Slot(0, 0, 0, 0, []));
    }

    /** One non-blocking write; -1 only if the connection is broken. */
    method TryToSend(answer: Answer) returns (ret: int)
      requires Valid()
      modifies this`sendQueue, this`taken
      ensures Valid() && Outgoing() == Flush(old(Outgoing()), answer)
      ensures ret == if answer == Broken then -1 else 0
    {
      var len := |sendQueue|;
      if len > MAX_WRITE {
        len := MAX_WRITE;
      }
      match answer {
        case Took(n) =>
          var written := Min(n, len);
          taken := taken + sendQueue[..written];
          sendQueue := sendQueue[written..];
          ret := 0;
        case Again =>
          ret := 0;
        case Broken =>
          ret := -1;
      }
    }

    /** Every append to the send queue counts its bytes. */
    method Append(bytes: seq<byte>)
      requires Valid()
      modifies this`sendQueue, this`writtenSeq
      ensures Valid() && sendQueue == old(sendQueue) + bytes
      ensures writtenSeq == Add32(old(writtenSeq), |bytes|)
    {
      sendQueue := sendQueue + bytes;
      writtenSeq := Add32(writtenSeq, |bytes|);
    }

    /** One iteration of the loop of rtmp_send. */
    method AppendChunk(ch: nat, m: Message, pos: nat) returns (chunk: nat)
      requires Valid() && pos <= |m.body|
      modifies this`sendQueue, this`writtenSeq
      ensures Valid() && chunk == Min(|m.body| - pos, chunkLen)
      ensures sendQueue == old(sendQueue) + Piece(ch, m, pos, chunkLen)
      ensures writtenSeq == Add32(old(writtenSeq), |Piece(ch, m, pos, chunkLen)|)
    {
      hide Add32;
      if pos != 0 {
        Append([ch % 64 + 192]);
      }
      chunk := |m.body| - pos;
      if chunk > chunkLen {
        chunk := chunkLen;
      }
      Append(m.body[pos..pos + chunk]);
      Add32Add32(old(writtenSeq), 1, chunk);
    }

    /**
     * The loop of rtmp_send stopped after at most `n` passes, for every chunk length: zero included,
     * where no pass moves or appends anything.
     */
    method AppendAtMost(ch: nat, m: Message, n: nat) returns (pos: nat)
      requires Valid()
      modifies this`sendQueue, this`writtenSeq
      ensures Valid() && pos == LoopPos(|m.body|, chunkLen, n)
      ensures chunkLen == 0 ==> pos == 0 && sendQueue == old(sendQueue)
    {
      hide Piece;
      pos := 0;
      var i := 0;
      while i < n
        invariant 0 <= i <= n && Valid() && pos <= |m.body| && pos == LoopPos(|m.body|, chunkLen, i)
        invariant chunkLen == 0 ==> pos == 0 && sendQueue == old(sendQueue)
      {
        if pos < |m.body| {
          EmptyPiece(ch, m);
          var chunk := AppendChunk(ch, m, pos);
          pos := pos + chunk;
        }
        i := i + 1;
      }
    }

    /** The loop of rtmp_send. */
    method AppendChunks(ch: nat, m: Message)
      requires Valid() && chunkLen > 0
      modifies this`sendQueue, this`writtenSeq
      ensures Valid() && sendQueue == old(sendQueue) + LoopOutput(ch, m, 0, chunkLen)
      ensures writtenSeq == Add32(old(writtenSeq), |LoopOutput(ch, m, 0, chunkLen)|)
    {
      hide Add32, Piece, LoopOutput;
      var pos := 0;
      ghost var out: seq<byte> := [];
      Add32Zero(writtenSeq);
      while pos < |m.body|
        invariant 0 <= pos <= |m.body| && Valid()
        invariant sendQueue == old(sendQueue) + out
        invariant writtenSeq == Add32(old(writtenSeq), |out|)
        invariant out + LoopOutput(ch, m, pos, chunkLen) == LoopOutput(ch, m, 0, chunkLen)
      {
        ghost var piece := Piece(ch, m, pos, chunkLen);
        Add32Add32(old(writtenSeq), |out|, |piece|);
        LoopStep(ch, m, pos, chunkLen, out);
        assert old(sendQueue) + out + piece == old(sendQueue) + (out + piece);
        var chunk := AppendChunk(ch, m, pos);
        out := out + piece;
        pos := pos + chunk;
      }
      LoopDone(ch, m, chunkLen, out);
    }

    /** rtmp_send: header, chunks, one attempt to write. */
    method Send(kind: byte, endpoint: nat, body: seq<byte>, timestamp: nat, channel: nat, answer: Answer)
      requires Valid() && chunkLen > 0
      modifies this`sendQueue, this`taken, this`writtenSeq
      ensures Valid()
      ensures var ch := if endpoint == 1337 then 4 else channel;
              var m := Message(kind, timestamp, endpoint, body);
              Outgoing() == SendStep(old(Outgoing()), SendEvent.Send(ch, m, chunkLen, answer))
    {
      hide FirstHeader, Encoding, LoopOutput, Add32, Flush;
      var ch := if endpoint == STREAM_ID then CHAN_STREAM else channel;
      var m := Message(kind, timestamp, endpoint, body);
      ghost var header, loop := FirstHeader(ch, m), LoopOutput(ch, m, 0, chunkLen);
      AppendHeader(ch, m);
      AppendChunks(ch, m);
      LoopOutputWhole(ch, m, chunkLen);
      Add32Add32(old(writtenSeq), |header|, |loop|);
      assert old(sendQueue) + header + loop == old(sendQueue) + (header + loop);
      var _ := TryToSend(answer);
    }

    /** The header of the first chunk. */
    method AppendHeader(ch: nat, m: Message)
      requires Valid()
      modifies this`sendQueue, this`writtenSeq
      ensures Valid() && sendQueue == old(sendQueue) + FirstHeader(ch, m)
      ensures writtenSeq == Add32(old(writtenSeq), |FirstHeader(ch, m)|)
    {
      var header := [ch % 64] + Be24(m.timestamp) + Be24(|m.body|) + [m.kind] + Le32(m.endpoint);
      Append(header);
    }

    /** handle_message for the message complete in channel `ch`; the outer handlers are an oracle. */
    method HandleMessage(ch: nat, handlers: Handlers) returns (ok: bool)
      requires Valid() && ch < CHANNELS
      modifies this`readSeq, this`chunkLen, this`tried, this`handled, messages
      ensures Valid() && (Inbound(), if ok then Progress else Throw) == Deliver(old(Inbound()), ch, handlers)
    {
      var slot := messages[ch];
      var m := slot.ToMessage();
      tried := tried + [m];
      if (m.kind == MSG_BYTES_READ || m.kind == MSG_SET_CHUNK) && |m.body| < 4 {
        return false;
      }
      if handlers(tried) {
        return false;
      }
      if m.kind == MSG_BYTES_READ {
        readSeq := LoadBe32(m.body);
      } else if m.kind == MSG_SET_CHUNK {
        chunkLen := LoadBe32(m.body);
      }
      handled := handled + [m];
      messages[ch] := slot.(buf := []);
      ok := true;
    }

    /** Read the fields of a header of `n` bytes into the message of its channel. */
    method ReadHeader(ch: nat, n: nat) returns (ok: bool)
      requires Valid() && ch < CHANNELS && n in {1, 4, 8, 12} && n <= |buf|
      modifies messages
      ensures Valid() && ok == !TooShort(old(messages[ch]), buf, n)
      ensures messages[..] == old(messages[..])[ch := messages[ch]]
      ensures messages[ch] == if ok then ReadFields(old(messages[ch]), buf, n)
                              else old(messages[ch]).(len := LoadBe24(buf[4..7]))
    {
      hide LoadBe24, LoadLe32;
      if n >= 8 {
        var len := LoadBe24(buf[4..7]);
        messages[ch] := messages[ch].(len := len);
        if len < |messages[ch].buf| {
          return false;
        }
        messages[ch] := messages[ch].(kind := buf[7]);
      }
      if n >= 12 {
        messages[ch] := messages[ch].(endpoint := LoadLe32(buf[8..12]));
      }
      ok := true;
    }

    /** One iteration of the receive loop. */
    method ReceiveChunk(handlers: Handlers) returns (o: Outcome)
      requires Valid() && buf != []
      modifies this`buf, this`readSeq, this`chunkLen, this`tried, this`handled, messages
      ensures Valid() && (Inbound(), o) == Step(old(Inbound()), handlers)
    {
      hide LoadBe24, Absorb, TooShort, ReadFields;
      var flags := buf[0];
      var n := HeaderLength(flags);
      if |buf| < n {
        return NeedMore;
      }
      var ch := flags % 64;
      ghost var slots := messages[..];
      var ok := ReadHeader(ch, n);
      if !ok {
        return Throw;
      }
      var slot := messages[ch];
      if slot.len == 0 {
        return Throw;
      }
      var chunk := (slot.len - |slot.buf|) % TWO64;
      if chunk > chunkLen {
        chunk := chunkLen;
      }
      if |buf| < n + chunk {
        return NeedMore;
      }
      if n >= 4 && LoadBe24(buf[1..4]) == EXT_TIMESTAMP {
        return Throw;
      }
      o := Take(ch, n, chunk, slots, handlers);
    }

    /** The end of an iteration: move a chunk from the buffer to its message. */
    method Take(ch: nat, n: nat, chunk: nat, ghost slots: seq<Slot>, handlers: Handlers) returns (o: Outcome)
      requires Valid() && ch < CHANNELS && n in {1, 4, 8, 12} && n + chunk <= |buf|
      requires |slots| == CHANNELS && messages[..] == slots[ch := messages[ch]]
      modifies this`buf, this`readSeq, this`chunkLen, this`tried, this`handled, messages
      ensures Valid()
      ensures (Inbound(), o) == Absorb(old(Inbound()).(slots := slots), ch, old(messages[ch]), n, chunk, handlers)
    {
      hide LoadBe24, Deliver;
      ghost var slot0 := messages[ch];
      if n >= 4 {
        var ts := LoadBe24(buf[1..4]);
        if n < 12 {
          ts := (ts + messages[ch].timestamp) % TWO64;
        }
        messages[ch] := messages[ch].(timestamp := ts);
      }
      messages[ch] := messages[ch].(buf := messages[ch].buf + buf[n..n + chunk]);
      assert messages[..] ==
             slots[ch := slot0.(timestamp := NewTimestamp(slot0, buf, n), buf := slot0.buf + buf[n..n + chunk])];
      buf := buf[n + chunk..];
      o := Progress;
      if |messages[ch].buf| == messages[ch].len {
        var ok := HandleMessage(ch, handlers);
        o := if ok then Progress else Throw;
      }
    }

    /** The loop of recv_from_client. */
    method Drain(handlers: Handlers) returns (o: Outcome)
      requires Valid()
      modifies this`buf, this`readSeq, this`chunkLen, this`tried, this`handled, messages
      ensures Valid() && (Inbound(), o) == Run(old(Inbound()), handlers)
    {
      hide Step;
      ghost var start := Inbound();
      while buf != []
        invariant Valid() && Run(Inbound(), handlers) == Run(start, handlers)
        decreases |buf|
      {
        o := ReceiveChunk(handlers);
        if o != Progress {
          return;
        }
      }
      o := NeedMore;
    }

    /** recv_from_client: -1 if the connection has ended or failed, 0 if nothing has arrived. */
    method Receive(got: Got, handlers: Handlers) returns (ret: int, o: Outcome)
      requires Valid()
      modifies this`buf, this`readSeq, this`chunkLen, this`tried, this`handled, messages
      ensures Valid() && (got == Ended || got == Failed <==> ret == -1) && (ret == 0 || ret == -1)
      ensures (Inbound(), o) ==
              if got.Data? then Feed(old(Inbound()), got.data, handlers) else (old(Inbound()), NeedMore)
    {
      hide Run;
      o := NeedMore;
      match got {
        case Ended =>
          ret := -1;
        case Failed =>
          ret := -1;
        case NotYet =>
          ret := 0;
        case Data(data) =>
          buf := buf + data;
          o := Drain(handlers);
          ret := 0;
      }
    }
  }
}
