/**
 * What a channel does after an exception. handle_message is called before the slot is cleared
 * (main.cc:681-684), so the body of a message whose handler throws stays in it.
 */
module RtmpStale {
  import opened Bytes
  import opened RtmpReceive
  import opened RtmpSend
  import opened RtmpClient

  /** The message that is handed over when `stale` is in the slot: the old bytes, then those of the new body. */
  function Mixed(m: Message, stale: seq<byte>): Message
    requires |stale| <= |m.body|
  {
    m.(body := stale + m.body[..|m.body| - |stale|])
  }

  /** Handing over never takes anything back. */
  lemma {:induction false} RunOnlyAdds(r: Receiver, handlers: Handlers)
    requires r.Valid()
    ensures r.handled <= Run(r, handlers).0.handled
    decreases |r.buf|
  {
    hide Step;
    if r.buf != [] {
      var (r1, o) := Step(r, handlers);
      StepOnlyAdds(r, handlers);
      if o == Progress {
        RunOnlyAdds(r1, handlers);
      }
    }
  }

  lemma StepOnlyAdds(r: Receiver, handlers: Handlers)
    requires r.Valid() && r.buf != []
    ensures r.handled <= Step(r, handlers).0.handled
  {
    hide TooShort, ReadFields, NewTimestamp, ChunkSize, LoadBe24, LoadBe32;
  }

  /** What the loop makes of a completed message: it goes on behind it, or throws. */
  lemma RunAfterDeliver(r: Receiver, r1: Receiver, ch: nat, handlers: Handlers)
    requires r.Valid() && r.buf != [] && r1.Valid() && ch < CHANNELS && r1.handled == r.handled && r1.tried == r.tried
    requires Step(r, handlers) == Deliver(r1, ch, handlers)
    ensures var x, (r2, o) := r1.slots[ch].ToMessage(), Run(r, handlers);
            if Accepts(r, x, handlers) then r.handled + [x] <= r2.handled
            else o == Throw && r2.handled == r.handled
  {
    hide Step, LoadBe32;
    var (r2, o) := Deliver(r1, ch, handlers);
    if o == Progress {
      RunOnlyAdds(r2, handlers);
    }
  }

  /** The chunks of a message on a slot that holds `stale` in front of what has arrived of it. */
  lemma {:induction false} ChunksOntoStale(r: Receiver, ch: nat, m: Message, stale: seq<byte>, pos: nat,
                                           handlers: Handlers)
    requires r.Valid() && ch < CHANNELS && Framable(m) && r.chunkLen > 0
    requires |stale| + pos <= |m.body| && pos < |m.body| && r.slots[ch].buf == stale + m.body[..pos]
    requires pos > 0 ==> |stale| + pos < |m.body| && r.slots[ch] == FilledSlot(m, stale + m.body[..pos])
    requires r.buf == Flatten(ChunksFrom(ch, m, pos, r.chunkLen))
    ensures var x, (r2, o) := Mixed(m, stale), Run(r, handlers);
            if Accepts(r, x, handlers) then r.handled + [x] <= r2.handled
            else o == Throw && r2.handled == r.handled
    decreases |m.body| - pos
  {
    hide Step, Run, ChunksFrom, ChunkHeader, Deliver, Accepts, Flatten;
    var n, c := |m.body|, r.chunkLen;
    var size := Min(n - pos, c);
    var k := Min(n - |stale| - pos, c);
    var later := Flatten(ChunksFrom(ch, m, pos + size, c));
    var payload := m.body[pos..pos + size];
    ChunksBytes(ch, m, pos, c);
    StepOnto(r, ch, m, pos, payload + later, handlers);
    BytesTaken(m.body, stale, pos, k, payload, later);
    var r1 := r.(slots := r.slots[ch := FilledSlot(m, stale + m.body[..pos + k])], buf := (payload + later)[k..]);
    if |stale| + pos + k == n {
      assert pos + k == n - |stale|;
      RunAfterDeliver(r, r1, ch, handlers);
    } else {
      assert (payload + later)[k..] == later;
      RunStep(r, r1, handlers);
      SameAccepts(r, r1, Mixed(m, stale), handlers);
      ChunksOntoStale(r1, ch, m, stale, pos + k, handlers);
    }
  }

  lemma ChunksBytes(ch: nat, m: Message, pos: nat, c: nat)
    requires pos < |m.body| && c > 0
    ensures var after := pos + Min(|m.body| - pos, c);
            Flatten(ChunksFrom(ch, m, pos, c)) ==
              ChunkHeader(ch, m, pos) + (m.body[pos..after] + Flatten(ChunksFrom(ch, m, after, c)))
  {
    hide ChunksFrom, ChunkHeader, Flatten;
    var after := pos + Min(|m.body| - pos, c);
    ChunksFromStep(ch, m, pos, c);
    FlattenCons(ChunkAt(ch, m, pos, c), ChunksFrom(ch, m, after, c));
  }

  lemma BytesTaken(body: seq<byte>, stale: seq<byte>, pos: nat, k: nat, payload: seq<byte>, later: seq<byte>)
    requires pos + k <= pos + |payload| <= |body| && payload == body[pos..pos + |payload|]
    ensures stale + body[..pos] + (payload + later)[..k] == stale + body[..pos + k]
  {
    assert (payload + later)[..k] == body[pos..pos + k];
    assert body[..pos] + body[pos..pos + k] == body[..pos + k];
  }

  lemma RunStep(r: Receiver, r1: Receiver, handlers: Handlers)
    requires r.Valid() && r.buf != [] && Step(r, handlers) == (r1, Progress)
    ensures Run(r, handlers) == Run(r1, handlers)
  {
    hide Step;
  }

  lemma SameAccepts(r: Receiver, r1: Receiver, x: Message, handlers: Handlers)
    requires r.tried == r1.tried
    ensures Accepts(r, x, handlers) == Accepts(r1, x, handlers)
  {
  }

  /** A message shorter than what the slot holds is refused at its header, for good. */
  lemma ShorterIsRefused(r: Receiver, ch: nat, m: Message, rest: seq<byte>)
    requires r.Valid() && ch < CHANNELS && |m.body| < |r.slots[ch].buf| && |m.body| < 0x100_0000
    requires r.buf == FirstHeader(ch, m) + rest
    ensures Refused(r)
  {
    hide FirstHeader, LoadBe24, LoadLe32;
    FirstHeaderFields(ch, m, rest);
  }

  /** The next message handed over is `m`. */
  predicate HandsNext(r: Receiver, r1: Receiver, m: Message) {
    r.handled + [m] <= r1.handled
  }

  /** What becomes of the next message on a channel, whatever its slot holds. */
  lemma NextMessage(r: Receiver, ch: nat, m: Message, handlers: Handlers)
    requires r.Valid() && r.buf == [] && ch < CHANNELS && Framable(m) && r.chunkLen > 0
    ensures var stale := r.slots[ch].buf;
            var (r1, o) := Feed(r, Encoding(ch, m, r.chunkLen), handlers);
            if |stale| > |m.body| then o == Throw && Refused(r1) && r1.handled == r.handled
            else if Accepts(r, Mixed(m, stale), handlers) then HandsNext(r, r1, Mixed(m, stale))
            else o == Throw && r1.handled == r.handled
  {
    hide Run, Step, ChunksFrom, Refused;
    var stale, bytes := r.slots[ch].buf, Encoding(ch, m, r.chunkLen);
    var r0 := r.Append(bytes);
    assert r0.buf == bytes;
    if |stale| > |m.body| {
      EncodingHead(ch, m, r.chunkLen);
      var size := Min(|m.body|, r.chunkLen);
      ShorterIsRefused(r0, ch, m, m.body[..size] + Flatten(ChunksFrom(ch, m, size, r.chunkLen)));
      RefusedRun(r0, handlers);
    } else {
      assert stale + m.body[..0] == stale;
      SameAccepts(r, r0, Mixed(m, stale), handlers);
      ChunksOntoStale(r0, ch, m, stale, 0, handlers);
    }
  }

  lemma RefusedRun(r: Receiver, handlers: Handlers)
    requires r.Valid() && Refused(r)
    ensures var (r1, o) := Run(r, handlers); o == Throw && Refused(r1) && r1.handled == r.handled
  {
    hide Step, Refused;
    RefusedNotEmpty(r);
    RefusedHeaderSticks(r, handlers);
  }

  /**
   * The next message on a channel is handed over as it was sent if and only if its body repeats what
   * the slot holds and the handler takes it; for an empty slot that is: the handler takes it.
   */
  lemma NextMessageIff(r: Receiver, ch: nat, m: Message, handlers: Handlers)
    requires r.Valid() && r.buf == [] && ch < CHANNELS && Framable(m) && r.chunkLen > 0
    ensures var stale := r.slots[ch].buf;
            HandsNext(r, Feed(r, Encoding(ch, m, r.chunkLen), handlers).0, m) <==>
              && |stale| <= |m.body| && m.body == stale + m.body[..|m.body| - |stale|]
              && Accepts(r, m, handlers)
  {
    hide Feed, Encoding, Refused, Accepts;
    var stale := r.slots[ch].buf;
    NextMessage(r, ch, m, handlers);
    var r1 := Feed(r, Encoding(ch, m, r.chunkLen), handlers).0;
    if |stale| <= |m.body| && Accepts(r, Mixed(m, stale), handlers) {
      OnlyOneNext(r.handled, r1.handled, m, Mixed(m, stale));
    } else {
      NoneNext(r.handled, m);
    }
  }

  lemma OnlyOneNext(before: seq<Message>, after: seq<Message>, m: Message, x: Message)
    requires before + [x] <= after
    ensures before + [m] <= after <==> m == x
  {
    assert after[|before|] == x;
    assert before + [m] <= after ==> after[|before|] == m;
  }

  lemma NoneNext(before: seq<Message>, m: Message)
    ensures !(before + [m] <= before)
  {
  }

  /** The empty slot, in full: an accepted message is the next one handed over. */
  lemma EmptySlotIff(r: Receiver, ch: nat, m: Message, handlers: Handlers)
    requires r.Valid() && r.buf == [] && ch < CHANNELS && Framable(m) && r.chunkLen > 0 && r.slots[ch].buf == []
    ensures HandsNext(r, Feed(r, Encoding(ch, m, r.chunkLen), handlers).0, m) <==> Accepts(r, m, handlers)
  {
    hide Feed, Encoding, Accepts, HandsNext;
    NextMessageIff(r, ch, m, handlers);
    assert [] + m.body[..|m.body|] == m.body;
  }

  /**
   * A new message of the length of the old body is complete before any of its own bytes is read:
   * the OLD body is handed over under the new header, and the new body is left in the buffer,
   * where the loop takes it for chunk headers.
   */
  lemma OldBodyHandedOver(r: Receiver, ch: nat, m: Message, rest: seq<byte>, handlers: Handlers)
    requires r.Valid() && ch < CHANNELS && Framable(m) && |r.slots[ch].buf| == |m.body|
    requires r.buf == FirstHeader(ch, m) + rest
    ensures var before := r.slots[ch].buf;
            var r1 := r.(slots := r.slots[ch := FilledSlot(m, before)], buf := rest);
            && r.buf != [] && Step(r, handlers) == Deliver(r1, ch, handlers)
            && r1.slots[ch].ToMessage() == m.(body := before)
  {
    hide Step, FirstHeader, Deliver;
    StepOnto(r, ch, m, 0, rest, handlers);
    assert rest[..0] == [] && rest[0..] == rest && r.slots[ch].buf + [] == r.slots[ch].buf;
  }

  /** A longer one gets the old bytes in front of as many of its own as are then thought to be missing. */
  lemma OldBytesInFront(r: Receiver, ch: nat, m: Message, rest: seq<byte>, handlers: Handlers)
    requires r.Valid() && ch < CHANNELS && Framable(m) && |r.slots[ch].buf| < |m.body|
    requires r.buf == FirstHeader(ch, m) + rest && |rest| >= Min(|m.body| - |r.slots[ch].buf|, r.chunkLen)
    ensures var stale := r.slots[ch].buf;
            var k := Min(|m.body| - |stale|, r.chunkLen);
            var r1 := r.(slots := r.slots[ch := FilledSlot(m, stale + rest[..k])], buf := rest[k..]);
            && r.buf != []
            && Step(r, handlers) == if |stale| + k == |m.body| then Deliver(r1, ch, handlers) else (r1, Progress)
  {
    hide Step, FirstHeader, Deliver;
    StepOnto(r, ch, m, 0, rest, handlers);
  }

  const SHORT_SET_CHUNK := Message(MSG_SET_CHUNK, 0, 0, [0, 0, 0])

  /** A SET_CHUNK message of three bytes throws whatever the other handlers do, and stays in its slot. */
  lemma ShortSetChunkStays(handlers: Handlers)
    ensures var (r1, o) := Feed(Fresh(DEFAULT_CHUNK_LEN), Encoding(3, SHORT_SET_CHUNK, DEFAULT_CHUNK_LEN), handlers);
            && o == Throw && r1.buf == [] && r1.handled == [] && r1.Valid() && r1.chunkLen == DEFAULT_CHUNK_LEN
            && r1.slots[3].buf == [0, 0, 0]
  {
    hide Step, ChunkAt;
    var m, c := SHORT_SET_CHUNK, DEFAULT_CHUNK_LEN;
    var chunk := ChunkAt(3, m, 0, c);
    ChunksFromStep(3, m, 0, c);
    FlattenCons(chunk, []);
    assert Encoding(3, m, c) == chunk by {
      assert [chunk] + [] == [chunk];
      FlattenOne(chunk);
    }
    var r := Fresh(c).Append(chunk);
    assert r.buf == chunk && chunk + [] == chunk;
    StepOnChunk(r, 3, m, 0, [], handlers);
    ChunkNotEmpty(3, m, 0, c);
    assert m.body[..3] == m.body;
  }

  /**
   * A run: that message, and then any message of three bytes on the same channel. What is handed
   * over is the second header with the first body.
   */
  lemma WrongBodyHandedOver(m: Message, handlers: Handlers)
    requires Framable(m) && |m.body| == 3 && NeverThrows(handlers)
    requires m.kind != MSG_SET_CHUNK && m.kind != MSG_BYTES_READ
    ensures var c := DEFAULT_CHUNK_LEN;
            var pieces := [Encoding(3, SHORT_SET_CHUNK, c), Encoding(3, m, c)];
            [m.(body := [0, 0, 0])] <= PollAll(Fresh(c), pieces, handlers).handled
  {
    hide Feed, Encoding;
    var c := DEFAULT_CHUNK_LEN;
    var a, b := Encoding(3, SHORT_SET_CHUNK, c), Encoding(3, m, c);
    ShortSetChunkStays(handlers);
    var r1 := Feed(Fresh(c), a, handlers).0;
    NextMessage(r1, 3, m, handlers);
    assert [0, 0, 0] + m.body[..0] == [0, 0, 0];
    assert [] + [Mixed(m, [0, 0, 0])] == [m.(body := [0, 0, 0])];
    PollTwo(Fresh(c), a, b, handlers);
  }

  lemma PollTwo(r: Receiver, a: seq<byte>, b: seq<byte>, handlers: Handlers)
    requires r.Valid()
    ensures PollAll(r, [a, b], handlers) == Feed(Feed(r, a, handlers).0, b, handlers).0
  {
    hide Feed;
    var r1 := Feed(r, a, handlers).0;
    var both: seq<seq<byte>>, one: seq<seq<byte>> := [a, b], [b];
    assert both[1..] == one && one[1..] == [];
    assert PollAll(r1, one, handlers) == PollAll(Feed(r1, b, handlers).0, [], handlers);
  }
}
