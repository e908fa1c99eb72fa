/**
 * A peer that sends on all channels at once and begins its messages with any of the four header
 * forms of section 5.3.1.2 of the RTMP 1.0 specification, and the proof that the receiver takes
 * every interleaving of such chunk streams apart again.
 */
module RtmpPeer {
  import opened Bytes
  import opened BitStrings
  import opened BitIo
  import opened BitFields
  import opened RtmpReceive
  import opened RtmpSend
  import opened RtmpClient

  // ---------------------------------------------------------------- the header forms

  /** Message header types 0 to 3: what a header leaves out is as in the channel's last message. */
  datatype Form = Full | SameEndpoint | SameShape | Same

  datatype Item = Item(form: Form, message: Message)

  /** How much later than the last message of its channel a message is. */
  function Delta(before: Slot, m: Message): nat { (m.timestamp - before.timestamp) % TWO64 }

  /** The header of a message that follows `before` on its channel. */
  function ItemHeader(ch: nat, before: Slot, item: Item): (h: seq<byte>)
    requires ch < CHANNELS
    ensures |h| == match item.form case Full => 12 case SameEndpoint => 8 case SameShape => 4 case Same => 1
  {
    var m := item.message;
    match item.form
    case Full => [ch] + Be24(m.timestamp) + Be24(|m.body|) + [m.kind] + Le32(m.endpoint)
    case SameEndpoint => [64 + ch] + Be24(Delta(before, m)) + Be24(|m.body|) + [m.kind]
    case SameShape => [128 + ch] + Be24(Delta(before, m))
    case Same => [192 + ch]
  }

  /** A chunk length of zero would stop both ends. */
  predicate Sendable(m: Message) {
    Deliverable(m) && (m.kind == MSG_SET_CHUNK ==> LoadBe32(m.body) > 0)
  }

  /** The messages each form can begin: full ones carry 24 bits of time, the others as much of a difference. */
  predicate Expressible(before: Slot, item: Item) {
    var m := item.message;
    Deliverable(m) && m.timestamp < TWO64 &&
    match item.form
    case Full => m.timestamp < EXT_TIMESTAMP
    case SameEndpoint => m.endpoint == before.endpoint && Delta(before, m) < EXT_TIMESTAMP
    case SameShape => SameFields(before, m) && Delta(before, m) < EXT_TIMESTAMP
    case Same => SameFields(before, m) && m.timestamp == before.timestamp
  }

  predicate SameFields(before: Slot, m: Message) {
    m.kind == before.kind && |m.body| == before.len && m.endpoint == before.endpoint
  }

  /** Each message after the one in front of it. */
  predicate AllExpressible(before: Slot, items: seq<Item>)
    decreases |items|
  {
    items == [] ||
    (var m := items[0].message;
     Sendable(m) && Expressible(before, items[0]) && AllExpressible(FilledSlot(m, []), items[1..]))
  }

  function Messages(items: seq<Item>): (ms: seq<Message>)
    ensures |ms| == |items|
  {
    if items == [] then [] else [items[0].message] + Messages(items[1..])
  }

  /** One chunk: the header due at body position `pos` and at most chunkLen body bytes. */
  function ItemChunk(ch: nat, before: Slot, item: Item, pos: nat, chunkLen: nat): seq<byte>
    requires ch < CHANNELS && pos <= |item.message.body|
  {
    StartOf(ch, before, item, pos) + item.message.body[pos..pos + Min(|item.message.body| - pos, chunkLen)]
  }

  function StartOf(ch: nat, before: Slot, item: Item, pos: nat): seq<byte>
    requires ch < CHANNELS
  {
    if pos == 0 then ItemHeader(ch, before, item) else [192 + ch]
  }

  lemma FormAnnounces(ch: nat, before: Slot, item: Item)
    requires ch < CHANNELS && before.buf == [] && Expressible(before, item)
    ensures Announces(ItemHeader(ch, before, item), ch, before, item.message)
  {
    hide Announces, ItemHeader, Expressible;
    match item {
      case Item(Full, m) => FullHeader(ch, before, m);
      case Item(SameEndpoint, m) => SameEndpointHeader(ch, before, m);
      case Item(SameShape, m) => SameShapeHeader(ch, before, m);
      case Item(Same, m) => SameHeader(ch, before, m);
    }
  }

  /** The difference brings the old time to the new one. */
  lemma DeltaBack(before: Slot, m: Message)
    requires m.timestamp < TWO64
    ensures (Delta(before, m) + before.timestamp) % TWO64 == m.timestamp
  {
    var d := m.timestamp - before.timestamp;
    var q := d / TWO64;
    assert Delta(before, m) + before.timestamp == m.timestamp - TWO64 * q;
    assert q <= 0;
    Quotient(Delta(before, m) + before.timestamp, TWO64, -q, m.timestamp);
  }

  lemma SameEndpointHeader(ch: nat, before: Slot, m: Message)
    requires ch < CHANNELS && before.buf == [] && Expressible(before, Item(SameEndpoint, m))
    ensures Announces(ItemHeader(ch, before, Item(SameEndpoint, m)), ch, before, m)
  {
    hide LoadBe24, LoadLe32, Be24, Le32, Delta;
    DeltaBack(before, m);
    var h, delta := ItemHeader(ch, before, Item(SameEndpoint, m)), Delta(before, m);
    Be24RoundTrip(delta);
    Be24RoundTrip(|m.body|);
    assert h[1..4] == Be24(delta) && h[4..7] == Be24(|m.body|);
  }

  lemma SameShapeHeader(ch: nat, before: Slot, m: Message)
    requires ch < CHANNELS && before.buf == [] && Expressible(before, Item(SameShape, m))
    ensures Announces(ItemHeader(ch, before, Item(SameShape, m)), ch, before, m)
  {
    hide LoadBe24, LoadLe32, Be24, Le32, Delta;
    DeltaBack(before, m);
    var h, delta := ItemHeader(ch, before, Item(SameShape, m)), Delta(before, m);
    Be24RoundTrip(delta);
    assert h[1..4] == Be24(delta);
  }

  lemma SameHeader(ch: nat, before: Slot, m: Message)
    requires ch < CHANNELS && before.buf == [] && Expressible(before, Item(Same, m))
    ensures Announces(ItemHeader(ch, before, Item(Same, m)), ch, before, m)
  {
    hide Announces;
    ShortHeaderAnnounces(before, ch, m);
  }

  /** The full form is the header of rtmp_send. */
  lemma FullIsSent(ch: nat, before: Slot, m: Message)
    requires ch < CHANNELS
    ensures ItemHeader(ch, before, Item(Full, m)) == FirstHeader(ch, m)
  {
    hide Be24, Le32;
  }

  lemma FullHeader(ch: nat, before: Slot, m: Message)
    requires ch < CHANNELS && before.buf == [] && Expressible(before, Item(Full, m))
    ensures Announces(ItemHeader(ch, before, Item(Full, m)), ch, before, m)
  {
    hide Announces, ItemHeader, FirstHeader;
    FullIsSent(ch, before, m);
    ChunkHeaderAnnounces(before, ch, m, 0);
  }

  /** The fields of the four forms; the endpoint is the one number that is stored low byte first. */
  function HeaderFields(ch: nat, before: Slot, item: Item): seq<Field> {
    var m := item.message;
    match item.form
    case Full =>
      [Field(2, 0), Field(6, ch)] + [Field(24, m.timestamp)] + [Field(24, |m.body|)] + [Field(8, m.kind)]
      + [Field(8, m.endpoint), Field(8, m.endpoint / 0x100)]
      + [Field(8, m.endpoint / 0x1_0000), Field(8, m.endpoint / 0x100_0000)]
    case SameEndpoint =>
      [Field(2, 1), Field(6, ch)] + [Field(24, Delta(before, m))] + [Field(24, |m.body|)] + [Field(8, m.kind)]
    case SameShape => [Field(2, 2), Field(6, ch)] + [Field(24, Delta(before, m))]
    case Same => [Field(2, 3), Field(6, ch)]
  }

  /** Section 5.3.1 of the RTMP 1.0 specification, bit by bit, for every message and every channel. */
  lemma HeaderLayout(ch: nat, before: Slot, item: Item)
    requires ch < CHANNELS
    ensures FieldBits(HeaderFields(ch, before, item)) == BitsOf(ItemHeader(ch, before, item))
    ensures item.form == Full ==> ItemHeader(ch, before, item) == FirstHeader(ch, item.message)
  {
    hide FieldBits, BitsOf, Be24, Le32, Delta, Pow2, FirstHeader;
    var m := item.message;
    var time := if item.form == Full then m.timestamp else Delta(before, m);
    var t := match item.form case Full => 0 case SameEndpoint => 1 case SameShape => 2 case Same => 3;
    var f1, f2, f3 := [Field(2, t), Field(6, ch)], [Field(24, time)], [Field(24, |m.body|)];
    var b1, b2, b3: seq<byte> := [64 * t + ch], Be24(time), Be24(|m.body|);
    FlagsByte(t, ch);
    WordField(time);
    WordField(|m.body|);
    ByteField(m.kind);
    Glue(f1, b1, f2, b2);
    Glue(f1 + f2, b1 + b2, f3, b3);
    Glue(f1 + f2 + f3, b1 + b2 + b3, [Field(8, m.kind)], [m.kind]);
    if item.form == Full {
      FullIsSent(ch, before, m);
      LittleEndian(m.endpoint);
      Glue(f1 + f2 + f3 + [Field(8, m.kind)], b1 + b2 + b3 + [m.kind],
           EndpointFields(m.endpoint), Le32(m.endpoint));
      assert HeaderFields(ch, before, item) == f1 + f2 + f3 + [Field(8, m.kind)] + EndpointFields(m.endpoint);
    }
  }

  lemma FlagsByte(t: nat, ch: nat)
    requires t < 4 && ch < CHANNELS
    ensures FieldBits([Field(2, t), Field(6, ch)]) == BitsOf([64 * t + ch])
  {
    hide FieldBits, BitsOf;
    PowersTo8();
    Byte2(Field(2, t), Field(6, ch), 64 * t + ch);
  }

  function EndpointFields(v: nat): seq<Field> {
    [Field(8, v), Field(8, v / 0x100)] + [Field(8, v / 0x1_0000), Field(8, v / 0x100_0000)]
  }

  lemma LittleEndian(v: nat)
    ensures FieldBits(EndpointFields(v)) == BitsOf(Le32(v))
  {
    hide FieldBits, BitsOf, Pow2;
    Digits(v, 0x100, 0x100);
    Digits(v, 0x100, 0x1_0000);
    Digits(v / 0x100, 0x100, 0x100);
    TwoLow(v, v / 0x100);
    TwoLow(v / 0x1_0000, v / 0x100_0000);
    var x, y := [v % 0x100, v / 0x100 % 0x100], [v / 0x1_0000 % 0x100, v / 0x100_0000 % 0x100];
    Glue([Field(8, v), Field(8, v / 0x100)], x, [Field(8, v / 0x1_0000), Field(8, v / 0x100_0000)], y);
    assert Le32(v) == x + y;
  }

  lemma TwoLow(a: nat, b: nat)
    ensures FieldBits([Field(8, a), Field(8, b)]) == BitsOf([a % 0x100, b % 0x100])
  {
    hide FieldBits, BitsOf, ToBits;
    FieldBitsTwo(Field(8, a), Field(8, b));
    SmallPowers();
    ToBitsMod(a, 8);
    ToBitsMod(b, 8);
    BitsOfTwo(a % 0x100, b % 0x100);
  }

  // ---------------------------------------------------------------- the sending process

  /**
   * One channel of a sending peer: the header fields of its last complete message, the messages
   * still to be sent and how much of the first is out.
   */
  datatype Channel = Channel(before: Slot, queue: seq<Item>, sent: nat) {
    predicate Valid() {
      && before.buf == [] && AllExpressible(before, queue)
      && (if queue == [] then sent == 0 else sent < |queue[0].message.body|)
    }

    predicate Busy() { Valid() && queue != [] }

    /** Body bytes sent once the next chunk is out. */
    function After(chunkLen: nat): nat
      requires Busy()
    {
      sent + Min(|queue[0].message.body| - sent, chunkLen)
    }

    /** The message completed by the next chunk, if any. */
    function Completed(chunkLen: nat): seq<Message>
      requires Busy()
    {
      if After(chunkLen) == |queue[0].message.body| then [queue[0].message] else []
    }

    function Next(chunkLen: nat): (c: Channel)
      requires Busy()
      ensures c.Valid()
      ensures Completed(chunkLen) + Messages(c.queue) == Messages(queue)
    {
      if After(chunkLen) < |queue[0].message.body| then Channel(before, queue, After(chunkLen))
      else Channel(FilledSlot(queue[0].message, []), queue[1..], 0)
    }
  }

  /** A complete SET_CHUNK message changes the length of all later chunks. */
  function ChunkLenAfter(ms: seq<Message>, chunkLen: nat): (n: nat)
    requires forall m <- ms :: Sendable(m)
    ensures chunkLen > 0 ==> n > 0
  {
    if ms != [] && ms[0].kind == MSG_SET_CHUNK then assert Sendable(ms[0]); LoadBe32(ms[0].body) else chunkLen
  }

  /** A peer that sends on all its channels, one chunk at a time, in any interleaving. */
  datatype Sender = Sender(channels: seq<Channel>, chunkLen: nat) {
    predicate Valid() {
      |channels| == CHANNELS && chunkLen > 0 && forall c <- channels :: c.Valid()
    }

    predicate Enabled(ch: nat) { Valid() && ch < CHANNELS && channels[ch].Busy() }

    /** The chunk sent next on channel `ch`. */
    function Chunk(ch: nat): seq<byte>
      requires Enabled(ch)
    {
      ItemChunk(ch, channels[ch].before, channels[ch].queue[0], channels[ch].sent, chunkLen)
    }

    function Completed(ch: nat): seq<Message>
      requires Enabled(ch)
    {
      channels[ch].Completed(chunkLen)
    }

    function Next(ch: nat): (s: Sender)
      requires Enabled(ch)
      ensures s.Valid()
    {
      Sender(channels[ch := channels[ch].Next(chunkLen)], ChunkLenAfter(Completed(ch), chunkLen))
    }

    /** A schedule names the channel of every chunk; each channel named must have data. */
    predicate CanFollow(schedule: seq<nat>)
      decreases |schedule|
    {
      Valid() && (schedule != [] ==> Enabled(schedule[0]) && Next(schedule[0]).CanFollow(schedule[1..]))
    }

    function Follow(schedule: seq<nat>): (s: Sender)
      requires CanFollow(schedule)
      ensures s.Valid()
      decreases |schedule|
    {
      if schedule == [] then this else Next(schedule[0]).Follow(schedule[1..])
    }

    /** The bytes put on the wire along a schedule. */
    function Emit(schedule: seq<nat>): seq<byte>
      requires CanFollow(schedule)
      decreases |schedule|
    {
      if schedule == [] then [] else Chunk(schedule[0]) + Next(schedule[0]).Emit(schedule[1..])
    }

    /** The messages completed along a schedule, each with its channel. */
    function Outputs(schedule: seq<nat>): seq<(nat, Message)>
      requires CanFollow(schedule)
      decreases |schedule|
    {
      if schedule == [] then []
      else Tag(schedule[0], Completed(schedule[0])) + Next(schedule[0]).Outputs(schedule[1..])
    }
  }

  // ---------------------------------------------------------------- the receiver follows the sender

  predicate SlotTracks(slot: Slot, c: Channel) {
    if c.sent == 0 then slot == c.before
    else c.Busy() && slot == PartSlot(c.queue[0].message, c.sent)
  }

  /** Receiver and sender agree about every half-sent message and about the chunk length. */
  predicate Tracks(r: Receiver, s: Sender) {
    && r.Valid() && s.Valid()
    && r.buf == []
    && r.chunkLen == s.chunkLen
    && forall ch :: 0 <= ch < CHANNELS ==> SlotTracks(r.slots[ch], s.channels[ch])
  }

  /** What the receive loop does with one chunk of a message begun with any of the forms. */
  lemma StepOnItem(r: Receiver, ch: nat, before: Slot, item: Item, pos: nat, rest: seq<byte>, handlers: Handlers)
    requires r.Valid() && ch < CHANNELS && before.buf == [] && Expressible(before, item) && r.chunkLen > 0
    requires pos < |item.message.body|
    requires r.slots[ch] == if pos == 0 then before else PartSlot(item.message, pos)
    requires r.buf == ItemChunk(ch, before, item, pos, r.chunkLen) + rest
    ensures var m := item.message;
            var after := pos + Min(|m.body| - pos, r.chunkLen);
            var r1 := r.(slots := r.slots[ch := PartSlot(m, after)], buf := rest);
            Step(r, handlers) == if after == |m.body| then Deliver(r1, ch, handlers) else (r1, Progress)
  {
    hide StartOf, Step, Deliver, Announces, Expressible;
    var m := item.message;
    var size := Min(|m.body| - pos, r.chunkLen);
    var payload := m.body[pos..pos + size];
    var head := StartOf(ch, before, item, pos);
    assert r.buf == head + (payload + rest);
    StartAnnounces(r.slots[ch], ch, before, item, pos);
    assert m.body[..0] == [];
    StepOnHeader(r, ch, head, m, payload + rest, handlers);
    assert (payload + rest)[..size] == payload && (payload + rest)[size..] == rest;
    assert m.body[..pos] + payload == m.body[..pos + size];
  }

  lemma StartAnnounces(slot: Slot, ch: nat, before: Slot, item: Item, pos: nat)
    requires ch < CHANNELS && before.buf == [] && Expressible(before, item) && pos < |item.message.body|
    requires slot == if pos == 0 then before else PartSlot(item.message, pos)
    ensures Announces(StartOf(ch, before, item, pos), ch, slot, item.message)
  {
    hide Announces, ItemHeader;
    if pos == 0 {
      FormAnnounces(ch, before, item);
    } else {
      ShortHeaderAnnounces(slot, ch, item.message);
    }
  }

  /** One chunk moves the receiver exactly as it moves the sender. */
  lemma StepFollows(r: Receiver, s: Sender, ch: nat, rest: seq<byte>, handlers: Handlers) returns (r1: Receiver)
    requires Tracks(r, s) && NeverThrows(handlers) && s.Enabled(ch)
    ensures Tracks(r1, s.Next(ch))
    ensures r1.handled == r.handled + s.Completed(ch)
    ensures Step(r.Append(s.Chunk(ch) + rest), handlers) == (r1.Append(rest), Progress)
  {
    hide Step, ItemChunk;
    var c := s.channels[ch];
    var m := c.queue[0].message;
    var r0 := r.Append(s.Chunk(ch) + rest);
    assert r0.buf == s.Chunk(ch) + rest;
    assert SlotTracks(r.slots[ch], c);
    StepOnItem(r0, ch, c.before, c.queue[0], c.sent, rest, handlers);
    assert m.body[..|m.body|] == m.body;
    var after := c.After(s.chunkLen);
    var r2 := r0.(slots := r.slots[ch := PartSlot(m, after)], buf := rest);
    if after == |m.body| {
      r1 := Deliver(r2, ch, handlers).0.(buf := []);
      assert r1.slots == r.slots[ch := PartSlot(m, after).(buf := [])];
    } else {
      r1 := r2.(buf := []);
      assert r.handled + [] == r.handled;
    }
    assert [] + rest == rest;
  }

  lemma UntagConcat(ch: nat, ms: seq<Message>, rest: seq<(nat, Message)>)
    ensures Untag(Tag(ch, ms) + rest) == ms + Untag(rest)
  {
  }

  lemma {:induction false} RunFollows(r: Receiver, s: Sender, schedule: seq<nat>, handlers: Handlers)
    requires Tracks(r, s) && NeverThrows(handlers) && s.CanFollow(schedule)
    ensures var (r1, o) := Run(r.Append(s.Emit(schedule)), handlers);
            && o == NeedMore
            && r1.handled == r.handled + Untag(s.Outputs(schedule))
            && Tracks(r1, s.Follow(schedule))
    decreases |schedule|
  {
    hide Step, Untag, Tag, Sender.Completed, Sender.Chunk, Sender.Next;
    if schedule == [] {
      assert r.buf + [] == [];
      NothingUntagged(r.handled);
    } else {
      var ch := schedule[0];
      var rest := s.Next(ch).Emit(schedule[1..]);
      var r1 := StepFollows(r, s, ch, rest, handlers);
      assert Run(r.Append(s.Emit(schedule)), handlers) == Run(r1.Append(rest), handlers);
      RunFollows(r1, s.Next(ch), schedule[1..], handlers);
      var done, later := s.Completed(ch), s.Next(ch).Outputs(schedule[1..]);
      UntagConcat(ch, done, later);
      assert r.handled + done + Untag(later) == r.handled + (done + Untag(later));
    }
  }

  /**
   * Whatever the interleaving of the channels and whatever the segmentation of the stream,
   * also across SET_CHUNK messages, the receiver hands over exactly the messages whose last
   * chunk was sent, whole and in the order of their last chunks, and never throws.
   */
  lemma InterleavedReception(r: Receiver, s: Sender, schedule: seq<nat>, segments: seq<seq<byte>>, handlers: Handlers)
    requires Tracks(r, s) && NeverThrows(handlers) && s.CanFollow(schedule)
    requires Flatten(segments) == s.Emit(schedule)
    ensures var (r1, o) := FeedAll(r, segments, handlers);
            && o == NeedMore
            && r1.handled == r.handled + Untag(s.Outputs(schedule))
            && Tracks(r1, s.Follow(schedule))
  {
    SegmentationIndependence(r, segments, handlers);
    RunFollows(r, s, schedule, handlers);
  }

  /** Nothing is lost, duplicated or reordered within a channel. */
  lemma {:induction false} ChannelOrder(s: Sender, schedule: seq<nat>, ch: nat)
    requires s.CanFollow(schedule) && ch < CHANNELS
    ensures OnChannel(s.Outputs(schedule), ch) + Messages(s.Follow(schedule).channels[ch].queue) ==
            Messages(s.channels[ch].queue)
    decreases |schedule|
  {
    hide Sender.Next, Sender.Completed, Tag, OnChannel, Messages, Channel.Valid;
    NoMessages(ch);
    if schedule != [] {
      var c := schedule[0];
      ChannelOrder(s.Next(c), schedule[1..], ch);
      OnChannelTag(c, s.Completed(c), s.Next(c).Outputs(schedule[1..]), ch);
      QueueStep(s, c, ch);
      var done := if c == ch then s.Completed(c) else [];
      var later := OnChannel(s.Next(c).Outputs(schedule[1..]), ch);
      var left := Messages(s.Follow(schedule).channels[ch].queue);
      assert done + later + left == done + (later + left);
    }
  }

  /** A chunk takes the message it completes off its queue, and nothing off the others. */
  lemma QueueStep(s: Sender, c: nat, ch: nat)
    requires s.Enabled(c) && ch < CHANNELS
    ensures (if c == ch then s.Completed(c) else []) + Messages(s.Next(c).channels[ch].queue) ==
            Messages(s.channels[ch].queue)
  {
    hide Channel.After, ChunkLenAfter;
    var q := Messages(s.channels[ch].queue);
    assert [] + q == q;
  }

  lemma NoMessages(ch: nat)
    ensures OnChannel<Message>([], ch) == []
  {
  }

  // ---------------------------------------------------------------- interleaved chunk streams

  /** The chunks of a message from body position `pos` on. */
  function ItemChunks(ch: nat, before: Slot, item: Item, pos: nat, chunkLen: nat): (cs: seq<seq<byte>>)
    requires ch < CHANNELS && pos <= |item.message.body| && chunkLen > 0
    decreases |item.message.body| - pos
  {
    if pos == |item.message.body| then []
    else [ItemChunk(ch, before, item, pos, chunkLen)]
         + ItemChunks(ch, before, item, pos + Min(|item.message.body| - pos, chunkLen), chunkLen)
  }

  /** The chunks of all messages of one channel. */
  function ChannelChunks(ch: nat, before: Slot, items: seq<Item>, chunkLen: nat): seq<seq<byte>>
    requires ch < CHANNELS && chunkLen > 0
    decreases |items|
  {
    if items == [] then []
    else ItemChunks(ch, before, items[0], 0, chunkLen)
         + ChannelChunks(ch, FilledSlot(items[0].message, []), items[1..], chunkLen)
  }

  /** The chunks a channel still has to send. */
  function Remaining(ch: nat, c: Channel, chunkLen: nat): seq<seq<byte>>
    requires ch < CHANNELS && c.Valid() && chunkLen > 0
  {
    if c.queue == [] then []
    else ItemChunks(ch, c.before, c.queue[0], c.sent, chunkLen)
         + ChannelChunks(ch, FilledSlot(c.queue[0].message, []), c.queue[1..], chunkLen)
  }

  predicate NoSetChunk(s: Sender) {
    forall c <- s.channels, item <- c.queue :: item.message.kind != MSG_SET_CHUNK
  }

  /** `merged` interleaves, at chunk boundaries, exactly the chunks the sender has left. */
  predicate Interleaves(merged: seq<(nat, seq<byte>)>, s: Sender) {
    && s.Valid()
    && (forall t <- merged :: t.0 < CHANNELS)
    && forall ch :: 0 <= ch < CHANNELS ==>
         OnChannel(merged, ch) == Remaining(ch, s.channels[ch], s.chunkLen)
  }

  function Labels(merged: seq<(nat, seq<byte>)>): seq<nat> {
    if merged == [] then [] else [merged[0].0] + Labels(merged[1..])
  }

  lemma RemainingNext(ch: nat, c: Channel, chunkLen: nat)
    requires ch < CHANNELS && c.Busy() && chunkLen > 0
    ensures Remaining(ch, c, chunkLen) ==
            [ItemChunk(ch, c.before, c.queue[0], c.sent, chunkLen)] + Remaining(ch, c.Next(chunkLen), chunkLen)
  {
    hide ItemChunk, ItemChunks, ChannelChunks;
    var item, after, next := c.queue[0], c.After(chunkLen), c.Next(chunkLen);
    var chunk := ItemChunk(ch, c.before, item, c.sent, chunkLen);
    var rest := ItemChunks(ch, c.before, item, after, chunkLen);
    var later := ChannelChunks(ch, FilledSlot(item.message, []), c.queue[1..], chunkLen);
    ItemChunksStep(ch, c.before, item, c.sent, chunkLen);
    assert [chunk] + rest + later == [chunk] + (rest + later);
    if after == |item.message.body| {
      assert rest == [] && rest + later == later;
      RemainingAtStart(ch, next, chunkLen);
    }
  }

  lemma ItemChunksStep(ch: nat, before: Slot, item: Item, pos: nat, chunkLen: nat)
    requires ch < CHANNELS && pos < |item.message.body| && chunkLen > 0
    ensures var after := pos + Min(|item.message.body| - pos, chunkLen);
            && ItemChunks(ch, before, item, pos, chunkLen) ==
               [ItemChunk(ch, before, item, pos, chunkLen)] + ItemChunks(ch, before, item, after, chunkLen)
            && (after == |item.message.body| ==> ItemChunks(ch, before, item, after, chunkLen) == [])
  {
    hide ItemChunk;
  }

  lemma InterleavesStep(merged: seq<(nat, seq<byte>)>, s: Sender)
    requires merged != [] && Interleaves(merged, s) && NoSetChunk(s)
    ensures s.Enabled(merged[0].0) && merged[0].1 == s.Chunk(merged[0].0)
    ensures Interleaves(merged[1..], s.Next(merged[0].0)) && NoSetChunk(s.Next(merged[0].0))
  {
    hide ItemChunk, ItemChunks, ChannelChunks;
    var c := merged[0].0;
    assert OnChannel(merged, c)[0] == merged[0].1;
    assert Remaining(c, s.channels[c], s.chunkLen) != [];
    assert s.channels[c].Busy();
    RemainingNext(c, s.channels[c], s.chunkLen);
    var s1 := s.Next(c);
    assert s.channels[c].queue[0] in s.channels[c].queue;
    assert s1.chunkLen == s.chunkLen;
    assert forall item <- s1.channels[c].queue :: item in s.channels[c].queue;
    forall ch | 0 <= ch < CHANNELS
      ensures OnChannel(merged[1..], ch) == Remaining(ch, s1.channels[ch], s1.chunkLen)
    {
      assert OnChannel(merged, ch) == Remaining(ch, s.channels[ch], s.chunkLen);
      if ch == c {
        assert OnChannel(merged, c)[1..] == OnChannel(merged[1..], c);
        assert Remaining(c, s.channels[c], s.chunkLen)[1..] == Remaining(c, s1.channels[c], s.chunkLen);
      }
    }
  }

  lemma {:induction false} InterleavingIsSchedule(merged: seq<(nat, seq<byte>)>, s: Sender)
    requires Interleaves(merged, s) && NoSetChunk(s)
    ensures s.CanFollow(Labels(merged))
    ensures s.Emit(Labels(merged)) == Flatten(Untag(merged))
    ensures forall ch :: 0 <= ch < CHANNELS ==> s.Follow(Labels(merged)).channels[ch].queue == []
    decreases |merged|
  {
    hide Sender.Next, Sender.Chunk, NoSetChunk, Sender.Enabled, Interleaves, Sender.Valid;
    InterleavesValid(merged, s);
    if merged == [] {
      NothingInterleaved(s);
    } else {
      InterleavesStep(merged, s);
      InterleavingIsSchedule(merged[1..], s.Next(merged[0].0));
      assert Untag(merged)[0] == merged[0].1 && Untag(merged)[1..] == Untag(merged[1..]);
      assert Labels(merged)[0] == merged[0].0 && Labels(merged)[1..] == Labels(merged[1..]);
    }
  }

  lemma InterleavesValid(merged: seq<(nat, seq<byte>)>, s: Sender)
    requires Interleaves(merged, s)
    ensures s.Valid() && |s.channels| == CHANNELS
  {
  }

  lemma NothingInterleaved(s: Sender)
    requires Interleaves([], s)
    ensures forall ch :: 0 <= ch < CHANNELS ==> s.channels[ch].queue == []
  {
    hide Remaining;
    forall ch | 0 <= ch < CHANNELS
      ensures s.channels[ch].queue == []
    {
      var none: seq<(nat, seq<byte>)> := [];
      assert OnChannel(none, ch) == [] && s.channels[ch].Valid();
      if s.channels[ch].queue != [] {
        RemainingNext(ch, s.channels[ch], s.chunkLen);
      }
    }
  }

  /** The sender that has everything still to send, to a receiver with these slots. */
  function Start(slots: seq<Slot>, items: seq<seq<Item>>, chunkLen: nat): (s: Sender)
    requires |slots| == |items| == CHANNELS && chunkLen > 0
    requires forall ch :: 0 <= ch < CHANNELS ==> slots[ch].buf == [] && AllExpressible(slots[ch], items[ch])
    ensures s.Valid()
  {
    Sender(seq(CHANNELS, ch requires 0 <= ch < CHANNELS => Channel(slots[ch], items[ch], 0)), chunkLen)
  }

  lemma RemainingAtStart(ch: nat, c: Channel, chunkLen: nat)
    requires ch < CHANNELS && chunkLen > 0 && c.Valid() && c.sent == 0
    ensures Remaining(ch, c, chunkLen) == ChannelChunks(ch, c.before, c.queue, chunkLen)
  {
    hide ItemChunks;
  }

  lemma AllIdle(r: Receiver, s: Sender)
    requires Tracks(r, s) && forall ch :: 0 <= ch < CHANNELS ==> s.channels[ch].queue == []
    ensures r.buf == [] && forall slot <- r.slots :: slot.buf == []
  {
    forall ch | 0 <= ch < CHANNELS
      ensures r.slots[ch].buf == []
    {
      assert s.channels[ch] in s.channels && SlotTracks(r.slots[ch], s.channels[ch]);
    }
  }

  /**
   * Any chunk-boundary interleaving of the messages of 64 channels, each begun with any header
   * form that can express it after the one before, cut into any segments, is received without an
   * exception; each channel's messages arrive whole and in order, with every field that a header
   * left out, and no channel is left with a half-received message.
   */
  lemma MixedForms(r: Receiver, items: seq<seq<Item>>, merged: seq<(nat, seq<byte>)>, segments: seq<seq<byte>>,
                   handlers: Handlers)
    returns (out: seq<(nat, Message)>)
    requires r.Valid() && r.buf == [] && r.chunkLen > 0 && NeverThrows(handlers) && |items| == CHANNELS
    requires forall ch :: 0 <= ch < CHANNELS ==> r.slots[ch].buf == [] && AllExpressible(r.slots[ch], items[ch])
    requires forall ch, i :: 0 <= ch < CHANNELS && 0 <= i < |items[ch]| ==> items[ch][i].message.kind != MSG_SET_CHUNK
    requires forall t <- merged :: t.0 < CHANNELS
    requires forall ch :: 0 <= ch < CHANNELS ==>
               OnChannel(merged, ch) == ChannelChunks(ch, r.slots[ch], items[ch], r.chunkLen)
    requires Flatten(segments) == Flatten(Untag(merged))
    ensures var (r1, o) := FeedAll(r, segments, handlers);
            && o == NeedMore && r1.buf == []
            && r1.handled == r.handled + Untag(out)
            && forall slot <- r1.slots :: slot.buf == []
    ensures forall ch :: 0 <= ch < CHANNELS ==> OnChannel(out, ch) == Messages(items[ch])
  {
    hide Run, Feed, FeedAll, ChannelChunks, Remaining, Flatten, AllExpressible;
    var s := Start(r.slots, items, r.chunkLen);
    forall ch | 0 <= ch < CHANNELS
      ensures OnChannel(merged, ch) == Remaining(ch, s.channels[ch], s.chunkLen)
    {
      assert s.channels[ch] == Channel(r.slots[ch], items[ch], 0);
      RemainingAtStart(ch, s.channels[ch], r.chunkLen);
    }
    var schedule := Labels(merged);
    InterleavingIsSchedule(merged, s);
    InterleavedReception(r, s, schedule, segments, handlers);
    out := s.Outputs(schedule);
    hide Tracks, Sender.Valid, Sender.CanFollow, Sender.Emit, Sender.Outputs, Interleaves, Start;
    AllIdle(FeedAll(r, segments, handlers).0, s.Follow(schedule));
    forall ch | 0 <= ch < CHANNELS
      ensures OnChannel(out, ch) == Messages(items[ch])
    {
      ChannelOrder(s, schedule, ch);
    }
  }

  // ---------------------------------------------------------------- interleaved rtmp_send streams

  /** rtmp_send begins every message with the full form. */
  function AllFull(ms: seq<Message>): (items: seq<Item>)
    ensures |items| == |ms| && forall i :: 0 <= i < |ms| ==> items[i] == Item(Full, ms[i])
  {
    if ms == [] then [] else [Item(Full, ms[0])] + AllFull(ms[1..])
  }

  /** The chunks of all messages rtmp_send is given for one channel. */
  function SentChunks(ch: nat, ms: seq<Message>, chunkLen: nat): seq<seq<byte>>
    requires chunkLen > 0
  {
    if ms == [] then [] else Chunks(ch, ms[0], chunkLen) + SentChunks(ch, ms[1..], chunkLen)
  }

  predicate AllCarried(ms: seq<Message>) {
    ms == [] || (Carried(ms[0]) && ms[0].kind != MSG_SET_CHUNK && AllCarried(ms[1..]))
  }

  lemma FullChunk(ch: nat, before: Slot, m: Message, pos: nat, chunkLen: nat)
    requires ch < CHANNELS && pos <= |m.body|
    ensures ItemChunk(ch, before, Item(Full, m), pos, chunkLen) == ChunkAt(ch, m, pos, chunkLen)
  {
    hide ItemHeader, FirstHeader;
    FullIsSent(ch, before, m);
  }

  lemma {:induction false} FullChunks(ch: nat, before: Slot, m: Message, pos: nat, chunkLen: nat)
    requires ch < CHANNELS && pos <= |m.body| && chunkLen > 0
    ensures ItemChunks(ch, before, Item(Full, m), pos, chunkLen) == ChunksFrom(ch, m, pos, chunkLen)
    decreases |m.body| - pos
  {
    if pos < |m.body| {
      hide ItemChunks, ChunksFrom, ItemHeader, FirstHeader;
      hide ChunkAt, ItemChunk;
      FullChunk(ch, before, m, pos, chunkLen);
      ItemChunksStep(ch, before, Item(Full, m), pos, chunkLen);
      ChunksFromStep(ch, m, pos, chunkLen);
      FullChunks(ch, before, m, pos + Min(|m.body| - pos, chunkLen), chunkLen);
    }
  }

  lemma {:induction false} SentIsFull(ch: nat, before: Slot, ms: seq<Message>, chunkLen: nat)
    requires ch < CHANNELS && chunkLen > 0 && AllCarried(ms)
    ensures SentChunks(ch, ms, chunkLen) == ChannelChunks(ch, before, AllFull(ms), chunkLen)
    decreases |ms|
  {
    hide ItemChunks, ChunksFrom, AllFull;
    AllFullStep(ms);
    if ms != [] {
      FullChunks(ch, before, ms[0], 0, chunkLen);
      SentIsFull(ch, FilledSlot(ms[0], []), ms[1..], chunkLen);
    }
  }

  lemma AllFullStep(ms: seq<Message>)
    ensures ms == [] ==> AllFull(ms) == []
    ensures ms != [] ==>
              AllFull(ms) != [] && AllFull(ms)[0] == Item(Full, ms[0]) && AllFull(ms)[1..] == AllFull(ms[1..])
  {
  }

  lemma {:induction false} FullExpressible(before: Slot, ms: seq<Message>)
    requires AllCarried(ms)
    ensures AllExpressible(before, AllFull(ms)) && Messages(AllFull(ms)) == ms
    ensures forall i :: 0 <= i < |ms| ==> ms[i].kind != MSG_SET_CHUNK
    decreases |ms|
  {
    hide AllFull;
    AllFullStep(ms);
    if ms != [] {
      FullExpressible(FilledSlot(ms[0], []), ms[1..]);
      assert ms == [ms[0]] + ms[1..];
    }
  }

  /**
   * Any chunk-boundary interleaving of what rtmp_send makes of the messages of 64 channels, cut
   * into any segments, arrives whole and in order.
   */
  lemma InterleavedStreams(r: Receiver, messages: seq<seq<Message>>, merged: seq<(nat, seq<byte>)>,
                           segments: seq<seq<byte>>, handlers: Handlers)
    returns (out: seq<(nat, Message)>)
    requires r.Valid() && r.buf == [] && r.chunkLen > 0 && NeverThrows(handlers)
    requires forall slot <- r.slots :: slot.buf == []
    requires |messages| == CHANNELS && forall ms <- messages :: AllCarried(ms)
    requires forall t <- merged :: t.0 < CHANNELS
    requires forall ch :: 0 <= ch < CHANNELS ==> OnChannel(merged, ch) == SentChunks(ch, messages[ch], r.chunkLen)
    requires Flatten(segments) == Flatten(Untag(merged))
    ensures var (r1, o) := FeedAll(r, segments, handlers);
            && o == NeedMore && r1.buf == []
            && r1.handled == r.handled + Untag(out)
            && forall slot <- r1.slots :: slot.buf == []
    ensures forall ch :: 0 <= ch < CHANNELS ==> OnChannel(out, ch) == messages[ch]
  {
    hide FeedAll, Flatten, SentChunks, ChannelChunks, AllExpressible, AllCarried, OnChannel, Untag;
    var items := seq(CHANNELS, ch requires 0 <= ch < CHANNELS => AllFull(messages[ch]));
    forall ch | 0 <= ch < CHANNELS
      ensures OnChannel(merged, ch) == ChannelChunks(ch, r.slots[ch], items[ch], r.chunkLen)
      ensures AllExpressible(r.slots[ch], items[ch]) && Messages(items[ch]) == messages[ch]
      ensures forall i :: 0 <= i < |items[ch]| ==> items[ch][i].message.kind != MSG_SET_CHUNK
    {
      assert messages[ch] in messages;
      SentIsFull(ch, r.slots[ch], messages[ch], r.chunkLen);
      FullExpressible(r.slots[ch], messages[ch]);
    }
    out := MixedForms(r, items, merged, segments, handlers);
  }

  // ---------------------------------------------------------------- one message in a shorter form

  lemma {:induction false} RunItem(r: Receiver, ch: nat, before: Slot, item: Item, pos: nat, handlers: Handlers)
    requires r.Valid() && ch < CHANNELS && before.buf == [] && Expressible(before, item)
    requires pos < |item.message.body| && r.chunkLen > 0 && NeverThrows(handlers)
    requires r.slots[ch] == if pos == 0 then before else PartSlot(item.message, pos)
    requires r.buf == Flatten(ItemChunks(ch, before, item, pos, r.chunkLen))
    ensures var (r1, o) := Run(r, handlers);
            && o == NeedMore && r1.buf == [] && r1.handled == r.handled + [item.message]
            && r1.slots == r.slots[ch := FilledSlot(item.message, [])]
    decreases |item.message.body| - pos
  {
    hide Step, ItemChunk, Flatten, ItemChunks, LoadBe32, Expressible;
    var m := item.message;
    var after := pos + Min(|m.body| - pos, r.chunkLen);
    var chunk, later := ItemChunk(ch, before, item, pos, r.chunkLen), ItemChunks(ch, before, item, after, r.chunkLen);
    ItemChunksStep(ch, before, item, pos, r.chunkLen);
    FlattenCons(chunk, later);
    StepOnItem(r, ch, before, item, pos, Flatten(later), handlers);
    var r1 := r.(slots := r.slots[ch := PartSlot(m, after)], buf := Flatten(later));
    ItemChunkNotEmpty(ch, before, item, pos, r.chunkLen);
    if after < |m.body| {
      RunItem(r1, ch, before, item, after, handlers);
    } else {
      ControlLongEnough(before, item);
      NothingLeft();
      assert m.body[..|m.body|] == m.body;
    }
  }

  lemma ControlLongEnough(before: Slot, item: Item)
    requires Expressible(before, item)
    ensures Deliverable(item.message)
  {
  }

  lemma NothingLeft()
    ensures Flatten<byte>([]) == []
  {
  }

  lemma ItemChunkNotEmpty(ch: nat, before: Slot, item: Item, pos: nat, chunkLen: nat)
    requires ch < CHANNELS && pos <= |item.message.body|
    ensures ItemChunk(ch, before, item, pos, chunkLen) != []
  {
    hide ItemHeader;
    assert |StartOf(ch, before, item, pos)| > 0;
  }

  /** The bytes of one message, alone on a receiver that is between messages. */
  predicate HandsOver(r: Receiver, bytes: seq<byte>, ch: nat, m: Message, handlers: Handlers)
    requires r.Valid() && ch < CHANNELS
  {
    var (r1, o) := Feed(r, bytes, handlers);
    o == NeedMore && r1.buf == [] && r1.handled == r.handled + [m] && r1.slots == r.slots[ch := FilledSlot(m, [])]
  }

  /** A chunk is its header, if it is the first, and what the loop of rtmp_send appends. */
  lemma ChunkIsPiece(ch: nat, before: Slot, item: Item, pos: nat, chunkLen: nat)
    requires ch < CHANNELS && pos <= |item.message.body|
    ensures ItemChunk(ch, before, item, pos, chunkLen) ==
            (if pos == 0 then ItemHeader(ch, before, item) else []) + Piece(ch, item.message, pos, chunkLen)
  {
    hide ItemHeader;
  }

  lemma LoopNext(ch: nat, m: Message, pos: nat, chunkLen: nat)
    requires pos <= |m.body| && chunkLen > 0
    ensures var after := pos + Min(|m.body| - pos, chunkLen);
            LoopOutput(ch, m, pos, chunkLen) ==
              if pos == |m.body| then [] else Piece(ch, m, pos, chunkLen) + LoopOutput(ch, m, after, chunkLen)
  {
    hide Piece;
  }

  lemma NoItemChunks(ch: nat, before: Slot, item: Item, chunkLen: nat)
    requires ch < CHANNELS && chunkLen > 0
    ensures Flatten(ItemChunks(ch, before, item, |item.message.body|, chunkLen)) == []
  {
  }

  lemma ThreeParts(a: seq<byte>, b: seq<byte>, c: seq<byte>)
    ensures a + b + c == a + (b + c) && [] + b == b
  {
  }

  /** The header, then the body with a one-byte header wherever a new chunk begins. */
  lemma {:induction false} ItemBytes(ch: nat, before: Slot, item: Item, pos: nat, chunkLen: nat)
    requires ch < CHANNELS && pos <= |item.message.body| != 0 && chunkLen > 0
    ensures Flatten(ItemChunks(ch, before, item, pos, chunkLen)) ==
            (if pos == 0 then ItemHeader(ch, before, item) else []) + LoopOutput(ch, item.message, pos, chunkLen)
    decreases |item.message.body| - pos
  {
    hide ItemChunks, ItemChunk, Flatten, ItemHeader, LoopOutput, Piece;
    var m := item.message;
    LoopNext(ch, m, pos, chunkLen);
    if pos == |m.body| {
      NoItemChunks(ch, before, item, chunkLen);
    } else {
      var after := pos + Min(|m.body| - pos, chunkLen);
      var head := if pos == 0 then ItemHeader(ch, before, item) else [];
      var piece, later := Piece(ch, m, pos, chunkLen), LoopOutput(ch, m, after, chunkLen);
      ItemChunksStep(ch, before, item, pos, chunkLen);
      FlattenCons(ItemChunk(ch, before, item, pos, chunkLen), ItemChunks(ch, before, item, after, chunkLen));
      ChunkIsPiece(ch, before, item, pos, chunkLen);
      ItemBytes(ch, before, item, after, chunkLen);
      ThreeParts(head, piece, later);
      ThreeParts(head, later, []);
    }
  }

  /** A message in any form that can express it is handed over, and its fields stay in the slot. */
  lemma ItemTaken(r: Receiver, ch: nat, item: Item, handlers: Handlers)
    requires r.Valid() && r.buf == [] && ch < CHANNELS && r.slots[ch].buf == [] && r.chunkLen > 0
    requires NeverThrows(handlers) && Expressible(r.slots[ch], item)
    ensures HandsOver(r, ItemHeader(ch, r.slots[ch], item) + LoopOutput(ch, item.message, 0, r.chunkLen), ch,
                      item.message, handlers)
  {
    hide Run, ItemHeader, LoopOutput, Flatten, ItemChunks;
    var bytes := Flatten(ItemChunks(ch, r.slots[ch], item, 0, r.chunkLen));
    assert [] + bytes == bytes;
    ItemBytes(ch, r.slots[ch], item, 0, r.chunkLen);
    RunItem(r.Append(bytes), ch, r.slots[ch], item, 0, handlers);
  }

  /**
   * What an 8-byte, a 4-byte and a 1-byte header stand for: the time is the channel's last time
   * plus the given difference, and what the header leaves out is as it was.
   */
  lemma ShorterForms(r: Receiver, ch: nat, delta: nat, kind: byte, body: seq<byte>, handlers: Handlers)
    requires r.Valid() && r.buf == [] && ch < CHANNELS && r.slots[ch].buf == [] && r.chunkLen > 0
    requires NeverThrows(handlers) && delta < 0xff_ffff && r.slots[ch].timestamp < TWO64
    ensures var slot := r.slots[ch];
            var time := (slot.timestamp + delta) % TWO64;
            var m := Message(kind, time, slot.endpoint, body);
            Deliverable(m) ==>
              HandsOver(r, [64 + ch] + Be24(delta) + Be24(|body|) + [kind] + LoopOutput(ch, m, 0, r.chunkLen),
                        ch, m, handlers)
    ensures var slot := r.slots[ch];
            var m := Message(slot.kind, (slot.timestamp + delta) % TWO64, slot.endpoint, body);
            Deliverable(m) && |body| == slot.len ==>
              HandsOver(r, [128 + ch] + Be24(delta) + LoopOutput(ch, m, 0, r.chunkLen), ch, m, handlers)
    ensures var slot := r.slots[ch];
            var m := Message(slot.kind, slot.timestamp, slot.endpoint, body);
            Deliverable(m) && |body| == slot.len ==>
              HandsOver(r, [192 + ch] + LoopOutput(ch, m, 0, r.chunkLen), ch, m, handlers)
  {
    hide HandsOver, LoopOutput, Be24, Deliverable;
    var slot := r.slots[ch];
    DeltaOf(slot, delta, kind, body);
    DeltaOf(slot, delta, slot.kind, body);
    var time := (slot.timestamp + delta) % TWO64;
    var m8, m4 := Message(kind, time, slot.endpoint, body), Message(slot.kind, time, slot.endpoint, body);
    var m1 := Message(slot.kind, slot.timestamp, slot.endpoint, body);
    hide Delta;
    if Deliverable(m8) {
      ItemTaken(r, ch, Item(SameEndpoint, m8), handlers);
    }
    if Deliverable(m4) && |body| == slot.len {
      ItemTaken(r, ch, Item(SameShape, m4), handlers);
    }
    if Deliverable(m1) && |body| == slot.len {
      ItemTaken(r, ch, Item(Same, m1), handlers);
    }
  }

  lemma DeltaOf(slot: Slot, delta: nat, kind: byte, body: seq<byte>)
    requires slot.timestamp < TWO64 && delta < TWO64
    ensures Delta(slot, Message(kind, (slot.timestamp + delta) % TWO64, slot.endpoint, body)) == delta
  {
  }

  /** A time or difference of 0xffffff stands for an extended one, in all forms that have it, and throws. */
  lemma ExtendedTimeThrows(r: Receiver, ch: nat, flags: nat, fields: seq<byte>, rest: seq<byte>, handlers: Handlers)
    requires r.Valid() && ch < CHANNELS && flags in {0, 64, 128} && |rest| >= r.chunkLen
    requires |fields| == if flags == 0 then 8 else if flags == 64 then 4 else 0
    requires r.buf == [flags + ch] + [0xff, 0xff, 0xff] + fields + rest
    ensures var (r1, o) := Run(r, handlers); o == Throw && r1.handled == r.handled && r1.buf == r.buf
  {
    hide LoadLe32, Absorb, TooShort, ReadFields;
    assert r.buf[0] == flags + ch && r.buf[1..4] == [0xff, 0xff, 0xff];
    assert LoadBe24([0xff, 0xff, 0xff]) == 0xff_ffff;
  }

  /** Eight bytes of header and one of body, to a client that has just connected. */
  lemma FirstIsDelta(handlers: Handlers)
    requires NeverThrows(handlers)
    ensures Feed(Fresh(128), [0x43, 0, 0, 0, 0, 0, 1, 8, 5], handlers).0.handled == [Message(8, 0, 0, [5])]
  {
    hide Run;
    var r, m := Fresh(128), Message(8, 0, 0, [5]);
    assert Deliverable(m);
    ShorterForms(r, 3, 0, 8, [5], handlers);
    OneChunk(3, m, 128);
    assert [67] + Be24(0) + Be24(1) + [8] + [5] == [0x43, 0, 0, 0, 0, 0, 1, 8, 5];
    assert [] + [m] == [m];
  }

  lemma OneChunk(ch: nat, m: Message, chunkLen: nat)
    requires 0 < |m.body| <= chunkLen
    ensures LoopOutput(ch, m, 0, chunkLen) == m.body
  {
    LoopDone(ch, m, chunkLen, []);
    assert [] + LoopOutput(ch, m, |m.body|, chunkLen) == LoopOutput(ch, m, |m.body|, chunkLen);
    assert m.body[0..|m.body|] == m.body && [] + m.body == m.body && m.body + [] == m.body;
  }
}
