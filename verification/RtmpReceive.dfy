/**
 * Reassembly of RTMP messages from the chunk stream of one client: the loop of
 * recv_from_client, which keeps a buffer of unread bytes and 64 half-received messages.
 */
module RtmpReceive {
  import opened Bytes

  const CHANNELS := 64
  const MSG_SET_CHUNK: byte := 0x01
  const MSG_BYTES_READ: byte := 0x03
  const EXT_TIMESTAMP := 0xff_ffff

  /** A complete message as it is handed to handle_message. */
  datatype Message = Message(kind: byte, timestamp: nat, endpoint: nat, body: seq<byte>)

  /** One entry of Client.messages: the header fields seen last and the body received so far. */
  datatype Slot = Slot(kind: byte, len: nat, timestamp: nat, endpoint: nat, buf: seq<byte>) {
    function ToMessage(): Message { Message(kind, timestamp, endpoint, buf) }
  }

  /**
   * The receiving half of a client. `tried` is the log of the messages given to handle_message so
   * far, `handled` of those it took without an exception.
   */
  datatype Receiver = Receiver(
    buf: seq<byte>, slots: seq<Slot>, chunkLen: nat, readSeq: nat, tried: seq<Message>, handled: seq<Message>)
  {
    predicate Valid() { |slots| == CHANNELS }
    function Append(more: seq<byte>): Receiver { this.(buf := buf + more) }
  }

  datatype Outcome = NeedMore | Progress | Throw

  /**
   * The message handlers that live outside this module may throw as well; whether they do is an
   * arbitrary function of the attempts up to and including this one, so that a message that was
   * refused once may be taken the next time.
   */
  type Handlers = seq<Message> -> bool

  function HeaderLength(flags: byte): (n: nat)
    ensures n in {1, 4, 8, 12}
  {
    match flags / 64
    case 0 => 12
    case 1 => 8
    case 2 => 4
    case _ => 1
  }

  /** The slot after its header fields have been read, before any body byte is taken. */
  function ReadFields(slot: Slot, head: seq<byte>, n: nat): Slot
    requires n <= |head|
  {
    var s1 := if n >= 8 then slot.(len := LoadBe24(head[4..7]), kind := head[7]) else slot;
    if n >= 12 then s1.(endpoint := LoadLe32(head[8..12])) else s1
  }

  /** The two complaints about a header; the first leaves the message type unread. */
  predicate TooShort(slot: Slot, head: seq<byte>, n: nat)
    requires n <= |head|
  {
    n >= 8 && LoadBe24(head[4..7]) < |slot.buf|
  }

  /** How many body bytes this chunk carries; the subtraction is on 64-bit unsigned numbers. */
  function ChunkSize(slot: Slot, chunkLen: nat): nat {
    Min((slot.len - |slot.buf|) % TWO64, chunkLen)
  }

  function NewTimestamp(slot: Slot, head: seq<byte>, n: nat): nat
    requires n <= |head|
  {
    if n >= 12 then LoadBe24(head[1..4])
    else if n >= 4 then (LoadBe24(head[1..4]) + slot.timestamp) % TWO64
    else slot.timestamp
  }

  /** Whether handle_message takes a message without an exception. */
  predicate Accepts(r: Receiver, m: Message, handlers: Handlers) {
    (m.kind == MSG_BYTES_READ || m.kind == MSG_SET_CHUNK ==> |m.body| >= 4) && !handlers(r.tried + [m])
  }

  /** handle_message, for the message just completed in channel `ch`. */
  function Deliver(r: Receiver, ch: nat, handlers: Handlers): (res: (Receiver, Outcome))
    requires r.Valid() && ch < CHANNELS
    ensures res.0.Valid() && res.0.buf == r.buf && res.1 != NeedMore
  {
    var m := r.slots[ch].ToMessage();
    var r0 := r.(tried := r.tried + [m]);
    if !Accepts(r, m, handlers) then (r0, Throw)
    else
      var r1 := r0.(handled := r.handled + [m], slots := r.slots[ch := r.slots[ch].(buf := [])]);
      if m.kind == MSG_BYTES_READ then (r1.(readSeq := LoadBe32(m.body)), Progress)
      else if m.kind == MSG_SET_CHUNK then (r1.(chunkLen := LoadBe32(m.body)), Progress)
      else (r1, Progress)
  }

  /** One iteration of the receive loop. */
  function Step(r: Receiver, handlers: Handlers): (res: (Receiver, Outcome))
    requires r.Valid() && r.buf != []
    ensures res.0.Valid()
    ensures res.1 == Progress ==> |res.0.buf| < |r.buf|
  {
    var n := HeaderLength(r.buf[0]);
    if |r.buf| < n then (r, NeedMore)
    else
      var ch := r.buf[0] % 64;
      var before := r.slots[ch];
      if TooShort(before, r.buf, n) then
        (r.(slots := r.slots[ch := before.(len := LoadBe24(r.buf[4..7]))]), Throw)
      else
        var slot := ReadFields(before, r.buf, n);
        var r1 := r.(slots := r.slots[ch := slot]);
        var size := ChunkSize(slot, r.chunkLen);
        if slot.len == 0 then (r1, Throw)
        else if |r.buf| < n + size then (r1, NeedMore)
        else if n >= 4 && LoadBe24(r.buf[1..4]) == EXT_TIMESTAMP then (r1, Throw)
        else Absorb(r, ch, slot, n, size, handlers)
  }

  /** Take a chunk out of the buffer, after a header of `n` bytes, into the slot of its channel. */
  function Absorb(r: Receiver, ch: nat, slot: Slot, n: nat, size: nat, handlers: Handlers): (res: (Receiver, Outcome))
    requires r.Valid() && ch < CHANNELS && n + size <= |r.buf|
    ensures res.0.Valid() && res.0.buf == r.buf[n + size..] && res.1 != NeedMore
  {
    var full := slot.(timestamp := NewTimestamp(slot, r.buf, n), buf := slot.buf + r.buf[n..n + size]);
    var r1 := r.(slots := r.slots[ch := full], buf := r.buf[n + size..]);
    if |full.buf| == full.len then Deliver(r1, ch, handlers) else (r1, Progress)
  }

  /** The loop: iterate until the buffer is empty, more data is needed or something throws. */
  function Run(r: Receiver, handlers: Handlers): (res: (Receiver, Outcome))
    requires r.Valid()
    ensures res.0.Valid() && res.1 != Progress
    decreases |r.buf|
  {
    if r.buf == [] then (r, NeedMore)
    else
      var (r1, o) := Step(r, handlers);
      if o == Progress then Run(r1, handlers) else (r1, o)
  }

  /** One call of recv_from_client that got `data` from the socket. */
  function Feed(r: Receiver, data: seq<byte>, handlers: Handlers): (res: (Receiver, Outcome))
    requires r.Valid()
    ensures res.0.Valid()
  {
    Run(r.Append(data), handlers)
  }

  /** A whole run: one call per segment, stopping at the first exception. */
  function FeedAll(r: Receiver, segments: seq<seq<byte>>, handlers: Handlers): (res: (Receiver, Outcome))
    requires r.Valid()
    ensures res.0.Valid()
    decreases |segments|
  {
    if segments == [] then (r, NeedMore)
    else
      var (r1, o) := Feed(r, segments[0], handlers);
      if o == Throw then (r1, Throw) else FeedAll(r1, segments[1..], handlers)
  }

  // ---------------------------------------------------------------- segmentation

  lemma AbsorbExtends(r: Receiver, ch: nat, slot: Slot, n: nat, size: nat, more: seq<byte>, handlers: Handlers)
    requires r.Valid() && ch < CHANNELS && n + size <= |r.buf|
    requires NewTimestamp(slot, r.buf + more, n) == NewTimestamp(slot, r.buf, n)
    ensures var (r1, o) := Absorb(r, ch, slot, n, size, handlers);
            Absorb(r.Append(more), ch, slot, n, size, handlers) == (r1.Append(more), o)
  {
    hide NewTimestamp, LoadBe32;
    var big := r.buf + more;
    assert big[n..n + size] == r.buf[n..n + size];
    assert big[n + size..] == r.buf[n + size..] + more;
  }

  lemma StepExtends(r: Receiver, more: seq<byte>, handlers: Handlers)
    requires r.Valid() && r.buf != []
    ensures var (r1, o) := Step(r, handlers);
            o != NeedMore ==> Step(r.Append(more), handlers) == (r1.Append(more), o)
  {
    hide Absorb;
    var n := HeaderLength(r.buf[0]);
    if |r.buf| >= n {
      HeaderPrefix(r.buf, more, n);
      hide TooShort, ReadFields, NewTimestamp, LoadBe24;
      var ch := r.buf[0] % 64;
      var slot := ReadFields(r.slots[ch], r.buf, n);
      var size := ChunkSize(slot, r.chunkLen);
      if |r.buf| >= n + size {
        AbsorbExtends(r, ch, slot, n, size, more, handlers);
      }
    }
  }

  /** Everything Step learns from a complete header it learns again when bytes are appended. */
  lemma HeaderPrefix(buf: seq<byte>, more: seq<byte>, n: nat)
    requires buf != [] && n == HeaderLength(buf[0]) && n <= |buf|
    ensures forall slot :: TooShort(slot, buf + more, n) == TooShort(slot, buf, n)
    ensures forall slot :: ReadFields(slot, buf + more, n) == ReadFields(slot, buf, n)
    ensures forall slot :: NewTimestamp(slot, buf + more, n) == NewTimestamp(slot, buf, n)
    ensures n >= 8 ==> (buf + more)[4..7] == buf[4..7]
    ensures n >= 4 ==> (buf + more)[1..4] == buf[1..4]
  {
    assert n >= 4 ==> (buf + more)[1..4] == buf[1..4];
    assert n >= 8 ==> (buf + more)[4..7] == buf[4..7];
    assert n >= 12 ==> (buf + more)[8..12] == buf[8..12];
  }

  /** A header looked at early and re-read later has the effect of one look. */
  lemma StepAfterEarlyLook(r: Receiver, more: seq<byte>, handlers: Handlers)
    requires r.Valid() && r.buf != []
    requires Step(r, handlers).1 == NeedMore
    ensures Step(r, handlers).0.buf == r.buf
    ensures Step(Step(r, handlers).0.Append(more), handlers) == Step(r.Append(more), handlers)
  {
    hide LoadBe24, LoadLe32, Absorb;
    var n := HeaderLength(r.buf[0]);
    if |r.buf| >= n {
      HeaderPrefix(r.buf, more, n);
      var ch := r.buf[0] % 64;
      var slot := ReadFields(r.slots[ch], r.buf, n);
      var r1 := r.(slots := r.slots[ch := slot]);
      assert Step(r, handlers).0 == r1;
      assert ReadFields(slot, r.buf, n) == slot;
      assert r1.slots[ch := slot] == r.slots[ch := slot];
      hide TooShort, ReadFields, ChunkSize;
      var size := ChunkSize(slot, r.chunkLen);
      if |r.buf + more| >= n + size {
        AbsorbIgnoresSlot(r.Append(more), slot, ch, slot, n, size, handlers);
      }
    }
  }

  lemma AbsorbIgnoresSlot(r: Receiver, s: Slot, ch: nat, slot: Slot, n: nat, size: nat, handlers: Handlers)
    requires r.Valid() && ch < CHANNELS && n + size <= |r.buf|
    ensures Absorb(r.(slots := r.slots[ch := s]), ch, slot, n, size, handlers) == Absorb(r, ch, slot, n, size, handlers)
  {
    hide NewTimestamp, LoadBe32;
    var full := slot.(timestamp := NewTimestamp(slot, r.buf, n), buf := slot.buf + r.buf[n..n + size]);
    assert r.slots[ch := s][ch := full] == r.slots[ch := full];
  }

  lemma {:induction false} RunExtends(r: Receiver, more: seq<byte>, handlers: Handlers)
    requires r.Valid()
    ensures var (r1, o) := Run(r, handlers);
            Run(r.Append(more), handlers) ==
              if o == Throw then (r1.Append(more), Throw) else Run(r1.Append(more), handlers)
    decreases |r.buf|
  {
    hide Step;
    if r.buf == [] {
    } else {
      var (r1, o) := Step(r, handlers);
      StepExtends(r, more, handlers);
      if o == Progress {
        RunExtends(r1, more, handlers);
      } else if o == NeedMore {
        StepAfterEarlyLook(r, more, handlers);
      }
    }
  }

  /**
   * Two receive calls are one: same state, same messages. If the first call throws, so does
   * the single call, at the same point.
   */
  lemma TwoReadsAreOne(r: Receiver, a: seq<byte>, b: seq<byte>, handlers: Handlers)
    requires r.Valid()
    ensures var (r1, o) := Feed(r, a, handlers);
            Feed(r, a + b, handlers) ==
              if o == Throw then (r1.Append(b), Throw) else Feed(r1, b, handlers)
  {
    assert r.buf + (a + b) == r.buf + a + b;
    RunExtends(r.Append(a), b, handlers);
  }

  /** The state in which a receive call leaves the client: nothing more can be taken from buf. */
  predicate Settled(r: Receiver, handlers: Handlers)
    requires r.Valid()
  {
    Run(r, handlers) == (r, NeedMore)
  }

  lemma {:induction false} RunSettles(r: Receiver, handlers: Handlers)
    requires r.Valid()
    ensures Run(r, handlers).1 == NeedMore ==> Settled(Run(r, handlers).0, handlers)
  {
    RunExtends(r, [], handlers);
    assert r.buf + [] == r.buf;
    var r1 := Run(r, handlers).0;
    assert r1.buf + [] == r1.buf;
  }

  /**
   * Reception does not depend on how the byte stream was cut into segments: same messages and
   * same verdict, and the same client state except that, after an exception, the bytes of the
   * segments that were never read are still missing from buf.
   */
  lemma {:induction false} SegmentationIndependence(r: Receiver, segments: seq<seq<byte>>, handlers: Handlers)
    requires r.Valid() && Settled(r, handlers)
    ensures var (whole, o) := Feed(r, Flatten(segments), handlers);
            var (parts, p) := FeedAll(r, segments, handlers);
            && o == p
            && parts == whole.(buf := parts.buf)
            && parts.buf <= whole.buf
            && (o != Throw ==> parts == whole)
    decreases |segments|
  {
    if segments == [] {
      assert r.buf + [] == r.buf;
    } else {
      var (r1, o) := Feed(r, segments[0], handlers);
      TwoReadsAreOne(r, segments[0], Flatten(segments[1..]), handlers);
      if o != Throw {
        RunSettles(r.Append(segments[0]), handlers);
        SegmentationIndependence(r1, segments[1..], handlers);
      }
    }
  }

  // ---------------------------------------------------------------- after an exception

  /** The caller's poll loop: an exception is reported and the next read goes on. */
  function PollAll(r: Receiver, segments: seq<seq<byte>>, handlers: Handlers): (res: Receiver)
    requires r.Valid()
    ensures res.Valid()
    decreases |segments|
  {
    if segments == [] then r else PollAll(Feed(r, segments[0], handlers).0, segments[1..], handlers)
  }

  /**
   * The header at the front of the buffer is complete and unacceptable: its length is below what the
   * slot already holds, or the slot has no length, or its chunk is there and its timestamp extended.
   */
  predicate Refused(r: Receiver)
    requires r.Valid()
  {
    r.buf != [] &&
    var n, ch := HeaderLength(r.buf[0]), r.buf[0] % 64;
    n <= |r.buf| &&
    var slot := ReadFields(r.slots[ch], r.buf, n);
    || TooShort(r.slots[ch], r.buf, n)
    || slot.len == 0
    || (n >= 4 && n + ChunkSize(slot, r.chunkLen) <= |r.buf| && LoadBe24(r.buf[1..4]) == EXT_TIMESTAMP)
  }

  /** These headers, and no others, throw without being taken off the buffer. */
  lemma RefusedIff(r: Receiver, handlers: Handlers)
    requires r.Valid() && r.buf != []
    ensures Refused(r) <==> Step(r, handlers).1 == Throw && Step(r, handlers).0.buf == r.buf
  {
    hide LoadBe24, LoadLe32, Absorb;
  }

  /** A refused header hands nothing over, and is refused again without any further change. */
  lemma RefusedHeaderSticks(r: Receiver, handlers: Handlers)
    requires r.Valid() && Refused(r)
    ensures var (r1, o) := Step(r, handlers);
            && o == Throw && r1 == r.(slots := r1.slots)
            && Refused(r1) && Step(r1, handlers) == (r1, Throw)
  {
    hide LoadBe24, LoadLe32, Absorb;
    var n, ch := HeaderLength(r.buf[0]), r.buf[0] % 64;
    var r1 := Step(r, handlers).0;
    var slot := ReadFields(r.slots[ch], r.buf, n);
    if TooShort(r.slots[ch], r.buf, n) {
      assert r1.slots[ch := r1.slots[ch]] == r1.slots;
    } else {
      assert ReadFields(slot, r.buf, n) == slot;
      assert r.slots[ch := slot][ch := slot] == r.slots[ch := slot];
    }
  }

  /** A read after that: the same header throws, and what was read is added to the buffer. */
  lemma RefusedFeed(r: Receiver, more: seq<byte>, handlers: Handlers)
    requires r.Valid() && Refused(r)
    ensures Feed(r, more, handlers) == (Step(r, handlers).0.Append(more), Throw)
    ensures Refused(Feed(r, more, handlers).0) && Step(r, handlers).0.handled == r.handled
  {
    hide Step, Refused;
    RefusedNotEmpty(r);
    RefusedHeaderSticks(r, handlers);
    var r1 := Step(r, handlers).0;
    StepExtends(r, more, handlers);
    StepExtends(r1, more, handlers);
    RefusedIff(r1.Append(more), handlers);
  }

  lemma RefusedNotEmpty(r: Receiver)
    requires r.Valid() && Refused(r)
    ensures r.buf != []
  {
  }

  /**
   * After a refused header every later read throws at that header again: the client's bytes pile
   * up in the buffer and no message is handed over any more.
   */
  lemma {:induction false} StuckForever(r: Receiver, segments: seq<seq<byte>>, handlers: Handlers)
    requires r.Valid() && Refused(r)
    ensures var r1 := PollAll(r, segments, handlers);
            && Refused(r1) && r1.handled == r.handled && r1.tried == r.tried && r1.buf == r.buf + Flatten(segments)
    ensures forall more :: Feed(PollAll(r, segments, handlers), more, handlers).1 == Throw
    decreases |segments|
  {
    hide Step, Refused, Feed;
    if segments == [] {
      assert r.buf + [] == r.buf;
      forall more
        ensures Feed(r, more, handlers).1 == Throw
      {
        RefusedFeed(r, more, handlers);
      }
    } else {
      RefusedFeed(r, segments[0], handlers);
      RefusedHeaderSticks(r, handlers);
      StuckForever(Feed(r, segments[0], handlers).0, segments[1..], handlers);
      assert r.buf + segments[0] + Flatten(segments[1..]) == r.buf + Flatten(segments);
    }
  }

  /** A client that has just connected. */
  function Fresh(chunkLen: nat): (r: Receiver)
    ensures r.Valid()
  {
    Receiver([], seq(CHANNELS, _ => Slot(0, 0, 0, 0, [])), chunkLen, 0, [], [])
  }

  /** One byte does it: the continuation of a message that was never begun. */
  lemma FreshStuck(chunkLen: nat, segments: seq<seq<byte>>, handlers: Handlers)
    ensures Feed(Fresh(chunkLen), [195], handlers).1 == Throw
    ensures Refused(Feed(Fresh(chunkLen), [195], handlers).0)
    ensures PollAll(Fresh(chunkLen), [[195]] + segments, handlers).handled == []
  {
    hide Step;
    var r := Fresh(chunkLen).Append([195]);
    assert r.buf == [195] && Refused(r);
    RefusedHeaderSticks(r, handlers);
    var r1 := Step(r, handlers).0;
    assert Feed(Fresh(chunkLen), [195], handlers) == (r1, Throw);
    assert ([[195]] + segments)[1..] == segments;
    StuckForever(r1, segments, handlers);
  }

  /**
   * A message whose handler throws stays in its slot with its whole body, so that a continuation
   * header on its channel hands over the same message again, whatever the handlers do with it then.
   */
  lemma RefusedMessageRetried(r: Receiver, ch: nat, rest: seq<byte>, handlers: Handlers)
    requires r.Valid() && ch < CHANNELS && r.slots[ch].len == |r.slots[ch].buf| > 0
    ensures !Accepts(r, r.slots[ch].ToMessage(), handlers) ==>
              Deliver(r, ch, handlers) == (r.(tried := r.tried + [r.slots[ch].ToMessage()]), Throw)
    ensures Step(r.(buf := [ch + 192] + rest), handlers) == Deliver(r.(buf := rest), ch, handlers)
  {
    hide LoadBe24, LoadBe32;
    var slot := r.slots[ch];
    var b := [ch + 192] + rest;
    assert b[1..1] == [] && b[1..] == rest && slot.buf + [] == slot.buf;
    assert r.slots[ch := slot] == r.slots;
  }

  // ---------------------------------------------------------------- what can be handed over

  /** What holds of every message handed over, whatever bytes arrive. */
  predicate Deliverable(m: Message) {
    && 1 <= |m.body| < 0x100_0000
    && m.endpoint < 0x1_0000_0000
    && (m.kind == MSG_BYTES_READ || m.kind == MSG_SET_CHUNK ==> |m.body| >= 4)
  }

  predicate SlotOk(slot: Slot) {
    |slot.buf| <= slot.len < 0x100_0000 && slot.endpoint < 0x1_0000_0000
  }

  predicate SlotsOk(r: Receiver) {
    r.Valid() && forall slot <- r.slots :: SlotOk(slot)
  }

  ghost predicate HandsOverDeliverable(r: Receiver, r1: Receiver) {
    r1.handled == r.handled || exists m :: r1.handled == r.handled + [m] && Deliverable(m)
  }

  lemma AbsorbKeepsSlots(r: Receiver, ch: nat, slot: Slot, n: nat, handlers: Handlers)
    requires SlotsOk(r) && ch < CHANNELS && SlotOk(slot) && slot.len > 0
    requires n + ChunkSize(slot, r.chunkLen) <= |r.buf|
    ensures var (r1, o) := Absorb(r, ch, slot, n, ChunkSize(slot, r.chunkLen), handlers);
            (o != Throw ==> SlotsOk(r1)) && HandsOverDeliverable(r, r1)
  {
    hide NewTimestamp, LoadBe32;
    var size := ChunkSize(slot, r.chunkLen);
    var full := slot.(timestamp := NewTimestamp(slot, r.buf, n), buf := slot.buf + r.buf[n..n + size]);
    assert SlotOk(full);
    if |full.buf| == full.len && full.len >= 4 {
      assert Deliverable(full.ToMessage());
    }
  }

  lemma StepKeepsSlots(r: Receiver, handlers: Handlers)
    requires SlotsOk(r) && r.buf != []
    ensures var (r1, o) := Step(r, handlers);
            (o != Throw ==> SlotsOk(r1)) && HandsOverDeliverable(r, r1)
  {
    hide LoadBe24, LoadLe32, Absorb;
    var n, ch := HeaderLength(r.buf[0]), r.buf[0] % 64;
    assert SlotOk(r.slots[ch]);
    if |r.buf| >= n && !TooShort(r.slots[ch], r.buf, n) {
      var slot := ReadFields(r.slots[ch], r.buf, n);
      assert SlotOk(slot);
      if slot.len > 0 && |r.buf| >= n + ChunkSize(slot, r.chunkLen) {
        AbsorbKeepsSlots(r, ch, slot, n, handlers);
      }
    }
  }

  /** Whatever bytes arrive: handed-over messages have a body byte to look at, and bounded fields. */
  lemma {:induction false} OnlyDeliverable(r: Receiver, handlers: Handlers)
    requires SlotsOk(r)
    ensures var r1 := Run(r, handlers).0;
            && r.handled <= r1.handled
            && forall m <- r1.handled[|r.handled|..] :: Deliverable(m)
    decreases |r.buf|
  {
    hide Step;
    if r.buf != [] {
      var (r1, o) := Step(r, handlers);
      StepKeepsSlots(r, handlers);
      if o == Progress {
        OnlyDeliverable(r1, handlers);
      }
    }
  }
}
