/**
 * The chunking side of RTMP: what rtmp_send appends to the send queue, and what
 * the receive loop does with one chunk.
 */
module RtmpSend {
  import opened Bytes
  import opened RtmpReceive

  const CHAN_STREAM := 4
  const STREAM_ID := 1337

  /** The 12-byte header of the first chunk of a message; wide numbers lose their top bytes. */
  function FirstHeader(ch: nat, m: Message): (h: seq<byte>)
    ensures |h| == 12
  {
    [ch % 64] + Be24(m.timestamp) + Be24(|m.body|) + [m.kind] + Le32(m.endpoint)
  }

  /** The header before the body byte at `pos`. */
  function ChunkHeader(ch: nat, m: Message, pos: nat): seq<byte> {
    if pos == 0 then FirstHeader(ch, m) else [ch % 64 + 192]
  }

  /** One chunk: the header due at body position `pos` and at most chunkLen body bytes. */
  function ChunkAt(ch: nat, m: Message, pos: nat, chunkLen: nat): seq<byte>
    requires pos <= |m.body|
  {
    ChunkHeader(ch, m, pos) + m.body[pos..pos + Min(|m.body| - pos, chunkLen)]
  }

  /** The chunks of a message from body position `pos` on. */
  function ChunksFrom(ch: nat, m: Message, pos: nat, chunkLen: nat): (cs: seq<seq<byte>>)
    requires pos <= |m.body| && chunkLen > 0
    decreases |m.body| - pos
  {
    if pos == |m.body| then []
    else [ChunkAt(ch, m, pos, chunkLen)]
         + ChunksFrom(ch, m, pos + Min(|m.body| - pos, chunkLen), chunkLen)
  }

  /** All chunks of a message; an empty message still has its header. */
  function Chunks(ch: nat, m: Message, chunkLen: nat): seq<seq<byte>>
    requires chunkLen > 0
  {
    if m.body == [] then [FirstHeader(ch, m)] else ChunksFrom(ch, m, 0, chunkLen)
  }

  /** What rtmp_send appends to the send queue. */
  function Encoding(ch: nat, m: Message, chunkLen: nat): seq<byte>
    requires chunkLen > 0
  {
    Flatten(Chunks(ch, m, chunkLen))
  }

  /** The messages that the header format can carry. */
  predicate Framable(m: Message) {
    1 <= |m.body| < 0x100_0000 && m.endpoint < TWO32 && m.timestamp < EXT_TIMESTAMP
  }

  /** Those of them that handle_message takes. */
  predicate Carried(m: Message) {
    Deliverable(m) && m.timestamp < EXT_TIMESTAMP
  }

  // ---------------------------------------------------------------- messages with their channels

  function Tag<T>(ch: nat, ms: seq<T>): (r: seq<(nat, T)>)
    ensures |r| == |ms|
  {
    seq(|ms|, i requires 0 <= i < |ms| => (ch, ms[i]))
  }

  function Untag<T>(tagged: seq<(nat, T)>): (r: seq<T>)
    ensures |r| == |tagged|
  {
    seq(|tagged|, i requires 0 <= i < |tagged| => tagged[i].1)
  }

  function OnChannel<T>(tagged: seq<(nat, T)>, ch: nat): seq<T> {
    if tagged == [] then []
    else if tagged[0].0 == ch then [tagged[0].1] + OnChannel(tagged[1..], ch)
    else OnChannel(tagged[1..], ch)
  }

  lemma {:induction false} OnChannelTag<T>(c: nat, ms: seq<T>, rest: seq<(nat, T)>, ch: nat)
    ensures OnChannel(Tag(c, ms) + rest, ch) == (if c == ch then ms else []) + OnChannel(rest, ch)
  {
    if ms == [] {
      assert Tag(c, ms) + rest == rest;
    } else {
      assert (Tag(c, ms) + rest)[1..] == Tag(c, ms[1..]) + rest;
      OnChannelTag(c, ms[1..], rest, ch);
      assert ms == [ms[0]] + ms[1..];
    }
  }

  // ---------------------------------------------------------------- what the receive loop does with a chunk

  /** The slot of a message of which `n` body bytes have arrived. */
  function PartSlot(m: Message, n: nat): Slot
    requires n <= |m.body|
  {
    FilledSlot(m, m.body[..n])
  }

  /** The slot of a message with `got` where its body should be. */
  function FilledSlot(m: Message, got: seq<byte>): Slot {
    Slot(m.kind, |m.body|, m.timestamp, m.endpoint, got)
  }

  ghost predicate NeverThrows(handlers: Handlers) {
    forall ms :: !handlers(ms)
  }

  lemma FirstHeaderFields(ch: nat, m: Message, rest: seq<byte>)
    requires ch < CHANNELS
    ensures var h := FirstHeader(ch, m) + rest;
            && h[0] == ch && HeaderLength(h[0]) == 12 && h[7] == m.kind
            && LoadBe24(h[1..4]) == m.timestamp % 0x100_0000
            && LoadBe24(h[4..7]) == |m.body| % 0x100_0000
            && LoadLe32(h[8..12]) == m.endpoint % 0x1_0000_0000
  {
    var h := FirstHeader(ch, m) + rest;
    assert h[1..4] == Be24(m.timestamp);
    assert h[4..7] == Be24(|m.body|);
    assert h[8..12] == Le32(m.endpoint);
    Be24RoundTrip(m.timestamp);
    Be24RoundTrip(|m.body|);
    Le32RoundTrip(m.endpoint);
  }

  /**
   * A header, on channel `ch` and for a slot in this state, begins or continues message `m`: it is
   * complete, nothing about it is refused, and the fields it leaves in the slot are the message's.
   */
  predicate Announces(head: seq<byte>, ch: nat, slot: Slot, m: Message) {
    && head != [] && |head| == HeaderLength(head[0]) && head[0] % 64 == ch
    && |slot.buf| <= |m.body| && 1 <= |m.body| < 0x100_0000
    && !TooShort(slot, head, |head|)
    && (|head| >= 4 ==> LoadBe24(head[1..4]) != EXT_TIMESTAMP)
    && var read := ReadFields(slot, head, |head|);
    read.(timestamp := NewTimestamp(read, head, |head|)) == FilledSlot(m, slot.buf)
  }

  lemma ChunkHeaderAnnounces(slot: Slot, ch: nat, m: Message, pos: nat)
    requires ch < CHANNELS && Framable(m) && |slot.buf| <= |m.body|
    requires pos > 0 ==> slot == FilledSlot(m, slot.buf)
    ensures Announces(ChunkHeader(ch, m, pos), ch, slot, m)
  {
    hide FirstHeader, LoadBe24, LoadLe32, HeaderLength;
    if pos == 0 {
      FirstHeaderFields(ch, m, []);
      assert FirstHeader(ch, m) + [] == FirstHeader(ch, m);
    } else {
      ShortHeaderAnnounces(slot, ch, m);
    }
  }

  /** The one-byte header of a continuation. */
  lemma ShortHeaderAnnounces(slot: Slot, ch: nat, m: Message)
    requires ch < CHANNELS && 1 <= |m.body| < 0x100_0000 && |slot.buf| <= |m.body|
    requires slot == FilledSlot(m, slot.buf)
    ensures Announces([192 + ch], ch, slot, m)
  {
  }

  /** What the receive loop does with one chunk. */
  lemma StepOnChunk(r: Receiver, ch: nat, m: Message, pos: nat, rest: seq<byte>, handlers: Handlers)
    requires r.Valid() && ch < CHANNELS && Framable(m) && pos < |m.body| && r.chunkLen > 0
    requires if pos == 0 then r.slots[ch].buf == [] else r.slots[ch] == PartSlot(m, pos)
    requires r.buf == ChunkAt(ch, m, pos, r.chunkLen) + rest
    ensures var after := pos + Min(|m.body| - pos, r.chunkLen);
            var r1 := r.(slots := r.slots[ch := PartSlot(m, after)], buf := rest);
            Step(r, handlers) == if after == |m.body| then Deliver(r1, ch, handlers) else (r1, Progress)
  {
    hide ChunkHeader, Step, Deliver;
    var size := Min(|m.body| - pos, r.chunkLen);
    var payload := m.body[pos..pos + size];
    assert r.buf == ChunkHeader(ch, m, pos) + (payload + rest);
    assert m.body[..0] == [];
    StepOnto(r, ch, m, pos, payload + rest, handlers);
    assert (payload + rest)[..size] == payload && (payload + rest)[size..] == rest;
    assert m.body[..pos] + payload == m.body[..pos + size];
  }

  /**
   * What the receive loop does with a header and enough bytes behind it, whatever the slot already
   * holds: it takes as many bytes as the body is thought to lack.
   */
  lemma StepOnto(r: Receiver, ch: nat, m: Message, pos: nat, rest: seq<byte>, handlers: Handlers)
    requires r.Valid() && ch < CHANNELS && Framable(m) && |r.slots[ch].buf| <= |m.body|
    requires pos > 0 ==> r.slots[ch] == FilledSlot(m, r.slots[ch].buf)
    requires r.buf == ChunkHeader(ch, m, pos) + rest
    requires |rest| >= Min(|m.body| - |r.slots[ch].buf|, r.chunkLen)
    ensures r.buf != []
    ensures var got := r.slots[ch].buf;
            var k := Min(|m.body| - |got|, r.chunkLen);
            var r1 := r.(slots := r.slots[ch := FilledSlot(m, got + rest[..k])], buf := rest[k..]);
            Step(r, handlers) == if |got| + k == |m.body| then Deliver(r1, ch, handlers) else (r1, Progress)
  {
    hide ChunkHeader, Step, Announces, Deliver;
    ChunkHeaderAnnounces(r.slots[ch], ch, m, pos);
    StepOnHeader(r, ch, ChunkHeader(ch, m, pos), m, rest, handlers);
  }

  /** The same for whatever header announces a message. */
  lemma StepOnHeader(r: Receiver, ch: nat, head: seq<byte>, m: Message, rest: seq<byte>, handlers: Handlers)
    requires r.Valid() && ch < CHANNELS && Announces(head, ch, r.slots[ch], m) && r.buf == head + rest
    requires |rest| >= Min(|m.body| - |r.slots[ch].buf|, r.chunkLen)
    ensures r.buf != []
    ensures var got := r.slots[ch].buf;
            var k := Min(|m.body| - |got|, r.chunkLen);
            var r1 := r.(slots := r.slots[ch := FilledSlot(m, got + rest[..k])], buf := rest[k..]);
            Step(r, handlers) == if |got| + k == |m.body| then Deliver(r1, ch, handlers) else (r1, Progress)
  {
    hide Step, ReadFields, NewTimestamp, Deliver, Announces;
    StepAbsorbs(r, ch, head, m, rest, handlers);
    var k := Min(|m.body| - |r.slots[ch].buf|, r.chunkLen);
    assert rest == rest[..k] + rest[k..];
    CutChunk(head, rest[..k], rest[k..]);
  }

  /** The header is accepted, and the fields it fills in are the message's. */
  lemma StepAbsorbs(r: Receiver, ch: nat, head: seq<byte>, m: Message, rest: seq<byte>, handlers: Handlers)
    requires r.Valid() && ch < CHANNELS && Announces(head, ch, r.slots[ch], m) && r.buf == head + rest
    requires |rest| >= Min(|m.body| - |r.slots[ch].buf|, r.chunkLen)
    ensures r.buf != [] && |r.slots[ch].buf| <= |m.body|
    ensures var n, got := |head|, r.slots[ch].buf;
            var slot := ReadFields(r.slots[ch], r.buf, n);
            && slot.(timestamp := NewTimestamp(slot, r.buf, n)) == FilledSlot(m, got)
            && Step(r, handlers) == Absorb(r, ch, slot, n, Min(|m.body| - |got|, r.chunkLen), handlers)
  {
    hide Announces, TooShort, ReadFields, NewTimestamp, ChunkSize, HeaderLength, LoadBe24, Absorb;
    HeaderFillsSlot(head, ch, r.slots[ch], m, rest, r.chunkLen);
  }

  /** The fields of a header as they arrive in the slot, and the size of the chunk. */
  lemma HeaderFillsSlot(head: seq<byte>, ch: nat, slot: Slot, m: Message, rest: seq<byte>, chunkLen: nat)
    requires Announces(head, ch, slot, m)
    ensures var buf, n := head + rest, |head|;
            && buf != [] && HeaderLength(buf[0]) == n && buf[0] % 64 == ch && |slot.buf| <= |m.body|
            && !TooShort(slot, buf, n)
            && (n >= 4 ==> LoadBe24(buf[1..4]) != EXT_TIMESTAMP)
            && var read := ReadFields(slot, buf, n);
            && read.(timestamp := NewTimestamp(read, buf, n)) == FilledSlot(m, slot.buf)
            && read.len > 0 && ChunkSize(read, chunkLen) == Min(|m.body| - |slot.buf|, chunkLen)
  {
    hide TooShort, ReadFields, NewTimestamp, HeaderLength, LoadBe24;
    assert head != [] && |head| == HeaderLength(head[0]);
    HeaderPrefix(head, rest, |head|);
    assert (head + rest)[0] == head[0];
  }

  lemma CutChunk(head: seq<byte>, payload: seq<byte>, rest: seq<byte>)
    ensures var b := head + (payload + rest);
            b[|head|..|head| + |payload|] == payload && b[|head| + |payload|..] == rest
  {
  }

  lemma NothingUntagged(handled: seq<Message>)
    ensures handled + Untag<Message>([]) == handled
  {
  }

  lemma ChunksFromStep(ch: nat, m: Message, pos: nat, chunkLen: nat)
    requires pos < |m.body| && chunkLen > 0
    ensures var after := pos + Min(|m.body| - pos, chunkLen);
            && ChunksFrom(ch, m, pos, chunkLen) == [ChunkAt(ch, m, pos, chunkLen)] + ChunksFrom(ch, m, after, chunkLen)
            && (after == |m.body| ==> ChunksFrom(ch, m, after, chunkLen) == [])
  {
    hide ChunkAt;
  }
}
