# A verified model of a media toolbox's protocol cores

The repository is a collection of media tools. This project models the parts of it that are
self-contained protocol code with a writer and a reader, and two small servers, and proves what
they are for over all inputs and all runs:

- the RTMP server: chunking and reassembly on 64 channels, the send queue, AMF0 values, and the
  publisher/player state machine with its key-frame gate (`Rtmp*.dfy`, `Amf*.dfy`, `Broadcast*.dfy`);
- MPEG transport and program streams: CRC, PES headers, multiplexers and demultiplexers
  (`Crc*.dfy`, `Pes.dfy`, `Ts*.dfy`, `Ps*.dfy`);
- H.264 over RTP and the Annex B file splitter (`Rtp*.dfy`, `AnnexB.dfy`);
- bit-level writers and readers and Exp-Golomb codes (`Bit*.dfy`, `Golomb.dfy`);
- the conference forwarder (`Conference.dfy`).

Each format has a pure description of what its code does, on which the theorems are stated, and
classes and methods that update fields, arrays and buffers in place as the code does and are proved
against that description. What a reader ignores is fixed as well: the `*Layout` modules, `AmfWire` and
`RtmpPeer.HeaderLayout` give the written headers as the bit-field tables of the standards, and
`RtmpPeer`, `AmfWire`, `TsForeign`, `PsForeign` and `RtpPicture` say what the readers make of input
that the writers here never produce. Sockets are answers handed in as parameters, files are lists of blocks,
and a mutex-protected operation is one atomic step. Check everything with
`dafny verify dfyconfig.toml`.

## Where the code does less than expected

Each is stated as the exact condition under which the code does what it should, with an input or a
run that shows it does not.

- TS: the reader ignores payload_unit_start_indicator, so a continuation payload that looks like a
  PES header is stripped; frames are recovered exactly if there is none
  (`TsRoundTrip.RunRecoveredIff`, `TsRoundTrip.LookalikeFrame`).
- TS: the reader compares the length of its buffer without the bytes it skipped, and may read behind it
  (`TsDemux.ReadsInsideIff`, `TsDemux.ReadsOutside`).
- PS: of a short buffer without a start code, bytes are dropped that may begin one
  (`PsDemux.DropsUnseenIff`, `PsDemux.StartCodeDropped`).
- RTP: a frame of type 28 that fits one packet is taken for a fragment and comes back changed
  (`RtpH264.ContentIff`, `RtpH264.MangledFrame`); lost and repeated fragments are not noticed
  (`RtpH264.LossIff`, `RtpH264.RepeatIff`, `RtpH264.LossAndRepeatCancel`).
- RTP: of a fragmented unit that is not the first of its picture, start code and first byte are lost
  (`RtpPicture.PictureWholeIff`, `RtpPicture.SliceBehindSet`).
- PS: lengths in a stream map are read as signed chars (`PsForeign.LengthReadIff`).
- Exp-Golomb: get_bits loses the bits of the first byte when position in the byte plus width exceeds
  32 (`Golomb.GatheredExactIff`, `Golomb.BitReader.ParseCodenum`, `Golomb.MisreadCode`).
- RTMP: with chunk_len 0, which a SET_CHUNK message may ask for, rtmp_send does not end
  (`RtmpClient.SendTerminatesIff`, `RtmpClient.PeerStopsSending`); timestamps from 0xffffff up do not
  arrive (`RtmpClient.ArrivesIffCarried`, `RtmpClient.ExtTimestampThrows`); the chunk length a peer
  sets also changes what is sent to it (`RtmpDelivery.ArriveAcrossIff`, `RtmpDelivery.ProbeLost`).
- RTMP after an exception: a client whose header was refused is never handled again
  (`RtmpReceive.RefusedIff`, `RtmpReceive.StuckForever`, `RtmpReceive.FreshStuck`); a message whose
  handler throws stays in its slot, where it spoils the next one on its channel
  (`RtmpStale.NextMessageIff`, `RtmpStale.WrongBodyHandedOver`).
- Broadcast: pausing does not clear the ready flag, so a paused client is still sent audio
  (`Broadcast.PausedSilenceIff`, `Broadcast.PausedClientHearsAudio`).
- AMF: strings of 65536 bytes or more and objects with an empty key do not come back
  (`Amf0.StringRoundTripIff`, `Amf0.LongStringLost`, `Amf0.ObjectRoundTripIff`, `Amf0.EmptyKeyLost`).
- AMF3: an integer is always read as 4, numbers, arrays and objects always fail, and a string reference
  is read as a string (`AmfWire.Amf3Values`, `AmfWire.Amf3String`).
- PES: lengths over 16 bits are written as 0 by one writer and truncated by the other
  (`Pes.WritersAgreeIff`, `Pes.WritersDiffer`).
- Annex B: a unit ends only where the next start code with a byte behind it is seen, so the last unit
  of a file is never returned; 00 00 01 inside a unit cuts it, and a three-byte code takes a zero off the
  unit in front of it (`AnnexB.SplitJoinedIff`, `AnnexB.HiddenStartCode`, `AnnexB.TrailingZeroLost`).
- Conference: endpoints are told apart by port alone (`Conference.ReachedIffFirst`,
  `Conference.SecondHostUnheard`).

## Model

| member | source | states |
|---|---|---|
| `RtmpReceive.StepExtends` | protocol/rtmp/rtmpserver-master/main.cc:620-685 | one pass of the receive loop that takes a chunk, or throws, does the same when more bytes stand behind the buffer |
| `RtmpReceive.StepAfterEarlyLook` | protocol/rtmp/rtmpserver-master/main.cc:626-664 | a header that was looked at while its chunk was incomplete may be read again later: the slot fields changed by the early look do not change the outcome |
| `RtmpReceive.RunExtends` | protocol/rtmp/rtmpserver-master/main.cc:620-685 | the whole loop on a buffer that is longer is the loop on the shorter one continued with the rest |
| `RtmpReceive.TwoReadsAreOne` | protocol/rtmp/rtmpserver-master/main.cc:606-688 | reading a and then b leaves the client, and has handled the messages, as reading a followed by b at once; an exception in the first read is the same exception at the same point |
| `RtmpReceive.SegmentationIndependence` | protocol/rtmp/rtmpserver-master/main.cc:606-688 | for every cut of the byte stream into reads: same messages, same verdict, same client state, also across SET_CHUNK in mid-stream |
| `RtmpReceive.RunSettles` | protocol/rtmp/rtmpserver-master/main.cc:620-685 | after a read that did not throw, running the loop again without new bytes does nothing |
| `RtmpReceive.StepKeepsSlots` | protocol/rtmp/rtmpserver-master/main.cc:626-685 | no slot ever holds more body bytes than its message announces, and a pass hands over only messages of a possible form |
| `RtmpReceive.OnlyDeliverable` | protocol/rtmp/rtmpserver-master/main.cc:620-685 | whatever arrives, every message handed over has a length of 1 to 2^24 - 1, equal to the announced one, and a type and endpoint that fit the header |
| `RtmpReceive.RefusedHeaderSticks` | protocol/rtmp/rtmpserver-master/main.cc:643-670 | a refused header hands nothing over, and is refused again without changing the client further |
| `RtmpReceive.RefusedIff` | protocol/rtmp/rtmpserver-master/main.cc:626-670 | a pass throws without taking its header off the buffer if and only if the header is complete and its length is below what the slot holds, or the slot has no length, or its chunk is there and its timestamp is 0xffffff |
| `RtmpReceive.StuckForever` | protocol/rtmp/rtmpserver-master/main.cc:794-804 | after such a header, whose exception the poll loop only reports, every later read throws at it again: the bytes pile up and no message is handed over any more |
| `RtmpReceive.FreshStuck` | protocol/rtmp/rtmpserver-master/main.cc:654-656 | a client that has just connected and is sent the single byte 195 is in that state for good |
| `RtmpReceive.RefusedMessageRetried` | protocol/rtmp/rtmpserver-master/main.cc:681-684 | a message whose handler throws stays in its slot whole, and a continuation header on its channel hands the same message to the handlers again, whatever they do with it then |
| `RtmpStale.NextMessage` | protocol/rtmp/rtmpserver-master/main.cc:641-684 | what becomes of the next message on a channel, whatever its slot still holds: shorter than that, it is refused for good; otherwise the old bytes followed by the front of its own body are handed over under its header, or refused by the handler |
| `RtmpStale.NextMessageIff` | protocol/rtmp/rtmpserver-master/main.cc:641-684 | it is the next message handed over as it was sent if and only if its body begins with the old bytes and repeats them throughout, and the handler takes it |
| `RtmpStale.EmptySlotIff` | protocol/rtmp/rtmpserver-master/main.cc:641-684 | on an empty slot, if and only if the handler takes it |
| `RtmpStale.ShorterIsRefused` | protocol/rtmp/rtmpserver-master/main.cc:643-647 | a message shorter than what the slot holds is refused at its header |
| `RtmpStale.OldBodyHandedOver` | protocol/rtmp/rtmpserver-master/main.cc:657-684 | one of equal length is complete before any byte of it is read: the old body goes out under the new header, and the new body is left to be read as chunk headers |
| `RtmpStale.OldBytesInFront` | protocol/rtmp/rtmpserver-master/main.cc:657-684 | a longer one gets the old bytes in front |
| `RtmpStale.ShortSetChunkStays` | protocol/rtmp/rtmpserver-master/main.cc:472-475 | a SET_CHUNK message of three bytes throws whatever the other handlers do, and stays in its slot |
| `RtmpStale.WrongBodyHandedOver` | protocol/rtmp/rtmpserver-master/main.cc:641-684 | a run: that message, then any message of three bytes on the same channel, which is handed over with the first one's body |
| `RtmpSend.StepOnChunk` | protocol/rtmp/rtmpserver-master/main.cc:146-187 | the receive loop takes exactly one chunk of rtmp_send off the buffer, whatever follows it, and either stores its bytes in the slot or delivers the whole message |
| `RtmpPeer.StepFollows` | protocol/rtmp/rtmpserver-master/main.cc:606-688 | one chunk of a peer that may begin its messages with any of the four header forms moves the receiver exactly as it moves the peer: slots, chunk length and delivered messages stay in agreement |
| `RtmpPeer.RunFollows` | protocol/rtmp/rtmpserver-master/main.cc:606-688 | the same over every schedule of chunks from 64 channels, SET_CHUNK messages included |
| `RtmpPeer.InterleavedReception` | protocol/rtmp/rtmpserver-master/main.cc:606-688 | the same when the bytes of the schedule arrive in arbitrary segments |
| `RtmpPeer.ChannelOrder` | protocol/rtmp/rtmpserver-master/main.cc:606-688 | on every channel, what was delivered followed by what is still queued is what was queued at the start |
| `RtmpPeer.InterleavingIsSchedule` | protocol/rtmp/rtmpserver-master/main.cc:170-186 | every merge of the channels' chunk lists is the output of a schedule that ends with nothing left to send |
| `RtmpPeer.InterleavedStreams` | protocol/rtmp/rtmpserver-master/main.cc:146-187 | any chunk-boundary interleaving of what rtmp_send makes of the messages of all channels, cut into any segments, is received without exception; each channel's messages arrive whole, in order, with type, endpoint, timestamp and body; no half message is left |
| `RtmpPeer.MixedForms` | protocol/rtmp/rtmpserver-master/main.cc:606-688 | the same for a peer that begins each message with a 12-, 8-, 4- or 1-byte header, whichever can express it after the last message of its channel: every field that a header leaves out arrives |
| `RtmpPeer.StepOnItem` | protocol/rtmp/rtmpserver-master/main.cc:620-685 | the receive loop takes exactly one such chunk off the buffer and stores it or delivers the message |
| `RtmpPeer.ItemTaken` | protocol/rtmp/rtmpserver-master/main.cc:620-685 | one message in any form that can express it, in chunks of any length, is handed over, and its fields stay in the slot |
| `RtmpPeer.ShorterForms` | protocol/rtmp/rtmpserver-master/main.cc:625-680 | what headers of 8, 4 and 1 bytes stand for: type and length new or as before, endpoint as before, time the channel's last time plus the 24-bit difference, or unchanged |
| `RtmpPeer.ExtendedTimeThrows` | protocol/rtmp/rtmpserver-master/main.cc:667-670 | a time or difference of 0xffffff throws in every form that has one, and hands nothing over |
| `RtmpPeer.FirstIsDelta` | protocol/rtmp/rtmpserver-master/main.cc:625-652 | nine bytes with an 8-byte header hand a client that has just connected a message of type 8 and one byte |
| `RtmpPeer.HeaderLayout` | protocol/rtmp/rtmpserver-master/main.cc:158-172 | the headers of all four forms bit by bit, as section 5.3.1 of the RTMP 1.0 specification lays them out; the full form is that of rtmp_send, for every message |
| `RtmpClient.ControlMessages` | protocol/rtmp/rtmpserver-master/main.cc:462-478 | a message of type 1 sets the chunk length, one of type 3 the count of bytes read, to the number in its first four bytes, and no other type does |
| `RtmpClient.ArrivesIffCarried` | protocol/rtmp/rtmpserver-master/main.cc:146-187 | a message given to rtmp_send arrives unchanged if and only if it is not empty, is shorter than 2^24 bytes, has a timestamp below 0xffffff and fields that fit |
| `RtmpClient.ExtTimestampThrows` | protocol/rtmp/rtmpserver-master/main.cc:667-671 | a message whose timestamp is 0xffffff modulo 2^24 makes the receiver throw and is not handed over |
| `RtmpClient.SendTerminatesIff` | protocol/rtmp/rtmpserver-master/main.cc:170-186 | the chunk loop of rtmp_send, whose position after n passes is LoopPos, ends if and only if chunk_len is positive or the body is empty |
| `RtmpClient.PeerStopsSending` | protocol/rtmp/rtmpserver-master/main.cc:472-478 | from every client state with nothing half received on that channel, a received SET_CHUNK message of zero is accepted and leaves chunk_len 0, and then no pass of the chunk loop moves past the first byte of a body |
| `RtmpClient.QueueConservation` | protocol/rtmp/rtmpserver-master/main.cc:128-187 | for every run of rtmp_send calls, each with the chunk length then in force, and of partial, refused or failed socket writes: bytes taken by the socket followed by send_queue are the concatenated encodings, and written_seq has grown by their length modulo 2^32 |
| `RtmpClient.PollsDrain` | protocol/rtmp/rtmpserver-master/main.cc:128-144 | a socket that takes what it is offered empties the queue at 4096 bytes a call, in order |
| `RtmpDelivery.SocketDelivery` | protocol/rtmp/rtmpserver-master/main.cc:128-187 | a whole run of rtmp_send calls and socket writes of any size, read by a peer in any pieces: the peer has handed over exactly the messages whose last byte the socket has taken, in order |
| `RtmpDelivery.PrefixDelivers` | protocol/rtmp/rtmpserver-master/main.cc:606-688 | of any prefix of the bytes of a list of messages exactly the complete ones are handed over, without an exception |
| `RtmpDelivery.WholeIs` | protocol/rtmp/rtmpserver-master/main.cc:681-684 | the messages counted as complete are those whose last byte is in the prefix |
| `RtmpDelivery.ArriveAcrossIff` | protocol/rtmp/rtmpserver-master/main.cc:472-478 | with chunk length c for the writer and d for the reader, every message of n bytes arrives if and only if c = d or n is at most both |
| `RtmpDelivery.ProbeLost` | protocol/rtmp/rtmpserver-master/main.cc:177-179 | a message that does not arrive, for all other lengths |
| `RtmpClient.LoopOutputWhole` | protocol/rtmp/rtmpserver-master/main.cc:146-187 | header plus what the chunk loop appends is the chunk encoding of the message |
| `RtmpClient.Client.TryToSend` | protocol/rtmp/rtmpserver-master/main.cc:128-144 | removes exactly the bytes the socket took; -1 only if the socket broke |
| `RtmpClient.Client.AppendChunk` | protocol/rtmp/rtmpserver-master/main.cc:170-185 | one pass of the chunk loop: the continuation header where one is due, then the piece, and written_seq advanced |
| `RtmpClient.Client.AppendAtMost` | protocol/rtmp/rtmpserver-master/main.cc:170-186 | the chunk loop stopped after n passes is at LoopPos, for every chunk_len; with chunk_len 0 it has moved and appended nothing |
| `RtmpClient.Client.Send` | protocol/rtmp/rtmpserver-master/main.cc:146-187 | rtmp_send: queue and socket hold the encoding of the message on the right channel, written_seq is advanced modulo 2^32 |
| `RtmpClient.Client.HandleMessage` | protocol/rtmp/rtmpserver-master/main.cc:454-478 | hands over the message of a slot and applies SET_CHUNK; reports the exception of a handler |
| `RtmpClient.Client.ReceiveChunk` | protocol/rtmp/rtmpserver-master/main.cc:620-685 | in place: one pass of the loop over the client's buffer, slots and counters does what the pure pass does, whose header forms, lengths and time rule the theorems of RtmpPeer fix |
| `RtmpClient.Client.Receive` | protocol/rtmp/rtmpserver-master/main.cc:606-688 | in place: one recv call; data runs the loop to its end, an ended or failed connection gives -1, nothing yet gives 0 |
| `Broadcast.RunInv` | protocol/rtmp/rtmpserver-master/main.cc:246-342 | in every run the publisher is nobody or a live client, and nobody is ready while nobody publishes |
| `Broadcast.TableIsHistory` | protocol/rtmp/rtmpserver-master/main.cc:690-752 | in every run the client table holds exactly the clients that have connected and not closed since |
| `Broadcast.PublisherIsHistory` | protocol/rtmp/rtmpserver-master/main.cc:246-253 | in every run a client is the publisher if and only if it asked to publish while connected and while nobody published, and has not closed since; a refused request leaves no trace |
| `Broadcast.MetadataIsHistory` | protocol/rtmp/rtmpserver-master/main.cc:399-411 | in every run the stored metadata is that of the last metadata message of a client that was the publisher when it came |
| `Broadcast.SecondRefused` | protocol/rtmp/rtmpserver-master/main.cc:246-251 | a run in which a second client asks to publish and nothing changes |
| `Broadcast.RefusedIsForgotten` | protocol/rtmp/rtmpserver-master/main.cc:246-251 | once the publisher has closed, nobody publishes, and the client refused before may ask again |
| `Broadcast.FlagsAreHistory` | protocol/rtmp/rtmpserver-master/main.cc:301-397 | in every run the flags playing and ready of a client say exactly what its history says: its last word was play; a key frame of the publisher came while it played and nothing has reset it since |
| `Broadcast.SentIsDue` | protocol/rtmp/rtmpserver-master/main.cc:513-552 | after every history, the next event sends each live client exactly what the history entitles it to; who is live, who publishes, what the metadata are and what a key frame is are read off the history and the bytes, not off the state |
| `Broadcast.SentIsLog` | protocol/rtmp/rtmpserver-master/main.cc:301-552 | over whole runs, everything a live client has been sent since it connected is what its history says, in order, no more and no less |
| `Broadcast.GateWasOpened` | protocol/rtmp/rtmpserver-master/main.cc:528-552 | a ready client was sent a clear-stream control and a key frame, with no play start, publisher close or own close since |
| `Broadcast.MediaIsGated` | protocol/rtmp/rtmpserver-master/main.cc:513-552 | any audio or video sent to a client is preceded, or is itself, a key frame sent right after a clear-stream control, within the publisher's session and since the client's last play start |
| `Broadcast.WhilePaused` | protocol/rtmp/rtmpserver-master/main.cc:371-397 | until it plays again a paused client is not playing, and it is ready if and only if it was ready when it paused and neither it nor its publisher has gone |
| `Broadcast.PausedSilenceIff` | protocol/rtmp/rtmpserver-master/main.cc:513-552 | however long after the pause, the publisher's message is withheld if and only if it is video, or the client was not ready when it paused, or it has lost its publisher since |
| `Broadcast.PausedClientHearsAudio` | protocol/rtmp/rtmpserver-master/main.cc:513-524 | a concrete run in which a paused client is sent audio |
| `BroadcastServer.Server.Accept` | protocol/rtmp/rtmpserver-master/main.cc:690-732 | a new client is appended to the table and the state follows the connect event |
| `BroadcastServer.Server.FcPublish` | protocol/rtmp/rtmpserver-master/main.cc:246-251 | the first client to ask becomes the publisher; while there is one, any other is refused and the publisher stays |
| `BroadcastServer.Server.StartPlayback` | protocol/rtmp/rtmpserver-master/main.cc:301-342 | puts the three status messages and, while somebody publishes, the metadata in the client's queue, sets playing, clears ready, and nothing else changes |
| `BroadcastServer.Server.HandlePause` | protocol/rtmp/rtmpserver-master/main.cc:371-397 | pause sends its status message and clears playing only; unpause restarts playback; then the reply, if the transaction wants one |
| `BroadcastServer.Server.SendReply` | protocol/rtmp/rtmpserver-master/main.cc:189-204 | puts one reply in the client's queue, unless the transaction number is negative, and changes nothing else |
| `BroadcastServer.Server.SetDataFrame` | protocol/rtmp/rtmpserver-master/main.cc:399-422 | the publisher's metadata is stored and sent to every playing client; anyone else, and any other type of data, is refused |
| `BroadcastServer.Server.Forwarding` | protocol/rtmp/rtmpserver-master/main.cc:513-552 | media of anyone but the publisher is refused; media of the publisher is offered to every client |
| `BroadcastServer.Server.OfferTo` | protocol/rtmp/rtmpserver-master/main.cc:513-552 | one client's share of a media message: audio when ready; video when playing, opening the gate at a key frame |
| `BroadcastServer.Server.CloseClient` | protocol/rtmp/rtmpserver-master/main.cc:734-752 | removes exactly that client from the table; a publisher that closes leaves no publisher and no ready client |
| `Amf0.LoadAt` | protocol/rtmp/rtmpserver-master/amf.cc:374-426 | wherever the encoding of a writable value, of any nesting, stands in a buffer, the reader returns the value, ends right behind it and stays in version 0 |
| `Amf0.LoadFieldsAt` | protocol/rtmp/rtmpserver-master/amf.cc:331-348 | the same for the fields of an object, which come back in key order up to the end marker |
| `Amf0.RoundTrip` | protocol/rtmp/rtmpserver-master/amf.cc:137-233 | reading what amf_write wrote gives the value back, whatever bytes follow; integers come back as numbers |
| `Amf0.DoubleDenotes` | protocol/rtmp/rtmpserver-master/amf.cc:145-162 | sign, exponent and mantissa of the number written for an integer denote that integer |
| `Amf0.DoubleInjective` | protocol/rtmp/rtmpserver-master/amf.cc:145-162 | different integers are written as different numbers |
| `Amf0.EcmaRoundTrip` | protocol/rtmp/rtmpserver-master/amf.cc:189-201 | the same for the ECMA array pair |
| `Amf0.UniquelyDecodable` | protocol/rtmp/rtmpserver-master/amf.cc:137-233 | equal byte strings hold values that are equal once integers are written as numbers: a message body can be cut into values in one way only |
| `Amf0.StringRoundTripIff` | protocol/rtmp/rtmpserver-master/amf.cc:137-143 | a string comes back if and only if it is shorter than 65536 bytes |
| `Amf0.LongStringLost` | protocol/rtmp/rtmpserver-master/amf.cc:137-143 | a string of 65536 bytes does not come back |
| `Amf0.ObjectRoundTripIff` | protocol/rtmp/rtmpserver-master/amf.cc:177-187 | an object of writable values comes back if and only if no key is empty |
| `Amf0.EmptyKeyFails` | protocol/rtmp/rtmpserver-master/amf.cc:331-348 | an object with an empty key is not read back as something else: the reader fails |
| `Amf0.EmptyKeyLost` | protocol/rtmp/rtmpserver-master/amf.cc:331-348 | the object with one empty key is not read back |
| `AmfWire.WireLayout` | protocol/rtmp/rtmpserver-master/amf.cc:137-233 | what amf_write appends, bit by bit, for every value of any nesting: markers 0, 1, 2, 3, 5 and 9, 16-bit lengths, 64-bit numbers, most significant bit first |
| `AmfWire.EcmaLayout` | protocol/rtmp/rtmpserver-master/amf.cc:189-201 | the same for an ECMA array: marker 8 and a count of zero |
| `AmfWire.LoadAnyFields` | protocol/rtmp/rtmpserver-master/amf.cc:331-348 | the field loop takes fields in any order and with repeated keys, and ends behind the end marker |
| `AmfWire.InsertAllIs` | protocol/rtmp/rtmpserver-master/amf.cc:337-343 | the result is in key order and every key has the value that was written for it first |
| `AmfWire.ForeignObject` | protocol/rtmp/rtmpserver-master/amf.cc:331-372 | an object, and an array with any count, with its fields in any order comes back as such a map |
| `AmfWire.OtherMarkers` | protocol/rtmp/rtmpserver-master/amf.cc:308-314 | any byte but 0 is true, except 17, which switches to version 3 and lets the next byte decide; unknown markers are refused |
| `AmfWire.U29RoundTrip` | protocol/rtmp/rtmpserver-master/amf.cc:235-250 | the variable length number of AMF3 is read back for every value below 2^29, in all four lengths |
| `AmfWire.Amf3String` | protocol/rtmp/rtmpserver-master/amf.cc:252-278 | a version 3 string is read with half its header as length, references included, and so is one behind the switch byte |
| `AmfWire.Amf3Values` | protocol/rtmp/rtmpserver-master/amf.cc:374-403 | every other value of version 3: the four constants are read, an integer is always 4, and numbers, arrays, objects and unknown markers always fail |
| `AmfCodec.Encoder.Write` | protocol/rtmp/rtmpserver-master/amf.cc:208-233 | amf_write appends exactly the encoding of the value, for every nesting |
| `AmfCodec.Encoder.WriteObject` | protocol/rtmp/rtmpserver-master/amf.cc:177-187 | appends the tag, every field in order and the end marker |
| `AmfCodec.Encoder.WriteEcma` | protocol/rtmp/rtmpserver-master/amf.cc:189-201 | appends the tag, a zero count, every field in order and the end marker |
| `AmfCodec.Decoder.Next` | protocol/rtmp/rtmpserver-master/amf.cc:17-29 | takes one byte and follows a version switch marker; fails at the end |
| `AmfCodec.Decoder.ReadFields` | protocol/rtmp/rtmpserver-master/amf.cc:331-348 | the loop of the object reader is the recursive reader, in position, version and result, also where it fails |
| `AmfCodec.Decoder.ReadString` | protocol/rtmp/rtmpserver-master/amf.cc:252-278 | same for strings in both versions |
| `AmfCodec.Decoder.ReadEcma` | protocol/rtmp/rtmpserver-master/amf.cc:350-372 | same for ECMA arrays in both versions |
| `AmfCodec.Decoder.Read` | protocol/rtmp/rtmpserver-master/amf.cc:374-426 | same for amf_load, for every buffer, position and version |
| `Bytes.Be24RoundTrip` | protocol/rtmp/rtmpserver-master/utils.cc:33-45 | what set_be24 stores load_be24 returns, modulo 2^24 |
| `Bytes.Be32RoundTrip` | protocol/rtmp/rtmpserver-master/utils.cc:12-17 | big-endian 32-bit words come back modulo 2^32 |
| `Bytes.Le32RoundTrip` | protocol/rtmp/rtmpserver-master/utils.cc:26-54 | what set_le32 stores load_le32 returns, modulo 2^32 |
| `Crc.Encode` | file/libmpeg/tsmux.c:23-46 | the loop over bytes and bits computes the shift-register checksum of the bit string |
| `Crc.Residue` | file/libmpeg/ps/utils.cpp:10-33 | for every byte string, the checksum of the data followed by its own checksum is 0 |
| `Crc.BurstDetected` | file/libmpeg/tsmux.c:23-46 | a string that checks to zero and differs from another only within a window of at most 32 bits: the other does not check to zero |
| `CrcDivision.ChecksumIsRemainder` | file/libmpeg/tsmux.c:23-46 | for every byte string the four checksum bytes are the remainder of the division of Annex A of ISO/IEC 13818-1: data and 32 zeros, first 32 bits inverted, by x^32 + x^26 + x^23 + x^22 + x^16 + x^12 + x^11 + x^10 + x^8 + x^7 + x^5 + x^4 + x^2 + x + 1 |
| `CrcDivision.RegisterDivides` | file/libmpeg/tsmux.c:31-43 | every state of the loop's register is a state of the long division |
| `CrcDivision.PolyIsGenerator` | file/libmpeg/tsmux.c:26-26 | the constant of the loop has exactly the coefficients of that polynomial |
| `TsMux.SectionsCheck` | file/libmpeg/tsmux.c:158-165 | every generated PAT and PMT section checks to zero |
| `BitIo.WriteReadBack` | file/libmpeg/ps/utils.cpp:60-127 | for every list of fields at every position: reading the same widths returns each value modulo its width, and no bit outside is changed |
| `BitIo.ReadBack` | file/libmpeg/ps/utils.cpp:96-127 | wherever the bits of a list of fields stand, the widths read back the values |
| `BitIo.BitsBuffer.Write` | file/libmpeg/ps/utils.cpp:60-81 | in place: the bits under the cursor are the low bits of the value, every other bit keeps its value, the cursor advances by the width |
| `BitIo.BitsBuffer.Read` | file/libmpeg/ps/utils.cpp:96-127 | returns the number the bits under the cursor stand for and advances by the width |
| `BitIo.BitsBuffer.WriteAll` | file/libmpeg/ps/utils.cpp:60-81 | several fields in place are one overwrite with their concatenated bits |
| `BitIo.BitsBuffer.ReadAll` | file/libmpeg/ps/utils.cpp:96-127 | several reads are the values of the consecutive fields |
| `Golomb.GatheredValue` | file/libh26x/spspps.cpp:83-140 | what the byte-gathering get_bits returns, for every position and width: the wanted bits up to 32 bits from the byte boundary, beyond that the wanted bits without those of the first byte |
| `Golomb.GatheredExactIff` | file/libh26x/spspps.cpp:83-140 | get_bits returns the wanted bits if and only if position in the byte plus width is at most 32 or the lost bits are zero |
| `Golomb.CodeShape` | file/libh26x/spspps.cpp:144-160 | an Exp-Golomb code of section 9.1 of ITU-T H.264 is z zeros, a one and z bits that hold codeNum + 1 - 2^z |
| `Golomb.SignedCodes` | file/libh26x/spspps.cpp:171-183 | code number k stands for the signed value ceil(k / 2), negative for even k |
| `Golomb.ShortGatherable` | file/libh26x/spspps.cpp:83-160 | lists of codes with at most 25 leading zeros lose no bit, wherever they stand |
| `Golomb.UngatherableCode` | file/libh26x/spspps.cpp:83-160 | the condition fails for a code of 26 leading zeros at bit 4 of a byte |
| `Golomb.MisreadCode` | file/libh26x/spspps.cpp:83-160 | eight bytes with that code at bit 4: of its low bits, which are not zero, zero is read |
| `Golomb.MisreadBits` | file/libh26x/spspps.cpp:83-140 | five bytes of ones: 32 bits from bit 4 on are read as 28 |
| `Golomb.BitReader.GetBit` | file/libh26x/spspps.cpp:55-79 | returns the bit under the cursor and advances both cursors |
| `Golomb.BitReader.GetBits` | file/libh26x/spspps.cpp:83-140 | clamps the width to 32 and to what is left, gathers, and advances both cursors |
| `Golomb.BitReader.ParseCodenum` | file/libh26x/spspps.cpp:144-160 | on a code with up to 31 leading zeros the cursor ends right behind it, and the number is right if and only if no gathered bit is lost and it is below 2^31 |
| `Golomb.BitReader.ParseUe` | file/libh26x/spspps.cpp:164-167 | the same for ue codes of every length |
| `Golomb.BitReader.ParseSe` | file/libh26x/spspps.cpp:171-183 | the signed value is right if and only if no gathered bit is lost, for codes with up to 30 leading zeros |
| `Golomb.BitReader.ParseAll` | file/libh26x/spspps.cpp:144-183 | any list of codes: the cursor ends right behind it, and it is read back exactly if and only if no code loses a bit; codes with at most 25 leading zeros never do |
| `Pes.StampRoundTrip` | file/libmpeg/pes.c:58-74 | the five time stamp bytes hold the time stamp modulo 2^33 |
| `Pes.ParseMade` | file/libmpeg/pes.c:76-184 | the header parser recovers stream id, (pts mod 2^33)/90 and header length from a generated header, whatever follows; the payload length if and only if it fits 16 bits |
| `Pes.FieldsAreHeader` | file/libmpeg/ps/psmux.cpp:136-191 | the bit fields, written one after the other, are the header bytes, for every id, length, pts and dts |
| `Pes.WritersAgreeIff` | file/libmpeg/ps/psmux.cpp:136-191 | the bit-wise and the byte-wise writer (dts = pts) put the same 19 bytes if and only if length + 13 fits 16 bits or is a multiple of 2^16 |
| `Pes.WritersDiffer` | file/libmpeg/ps/psmux.cpp:136-191 | a length for which the two writers differ |
| `Pes.GbMakePesHeader` | file/libmpeg/ps/psmux.cpp:136-191 | in place: the buffer holds exactly the header bytes, equal to those of the other writer for lengths that fit |
| `TsRoundTrip.PacketLayout` | file/libmpeg/tsmux.c:61-98 | where everything is in a generated packet: sync byte, no error, start indicator exactly if asked for, no priority, PID, counter, adaptation field exactly filling the gap, payload |
| `TsLayout.HeaderLayout` | file/libmpeg/tsmux.c:49-98 | header, adaptation field, clock reference and stuffing of every packet bit by bit, as section 2.4.3 of ISO/IEC 13818-1 lays them out |
| `TsLayout.PatLayout` | file/libmpeg/tsmux.c:101-158 | the program association section bit by bit: transport stream 0x0010, version 0, program 1 on PID 0x1001 |
| `TsLayout.PmtLayout` | file/libmpeg/tsmux.c:169-238 | the program map section bit by bit, for every list of streams: program 1, clock on the PID of the key stream or of the first, type and PID of each stream |
| `TsLayout.RunShaped` | file/libmpeg/tsmux.c:265-395 | for every run, which packets are made in which order: before a key frame the two tables behind pointer fields, then 176 and 182 bytes of the PES packet at a time; the start indicator is set on exactly those that begin with a pointer field or with a frame's PES header, the clock on exactly the latter |
| `TsLayout.FrameCount` | file/libmpeg/tsmux.c:265-343 | a frame takes one packet and one more for every 182 bytes begun behind its first 176 |
| `TsRoundTrip.ClockRecovered` | file/libmpeg/tsdemux.c:29-49 | the reader's clock after any generated packet is its clock reference, (ts mod 2^33)/90, or stays as it was without one |
| `TsRoundTrip.ReadPat` | file/libmpeg/tsmux.c:101-167 | the reader learns one program and the PMT's PID from the generated PAT |
| `TsRoundTrip.ReadPmt` | file/libmpeg/tsmux.c:169-247 | the reader learns exactly the PID and type of every stream, in order, from the generated PMT |
| `TsRoundTrip.OnStreamPacket` | file/libmpeg/tsdemux.c:51-89 | what the reader makes of any packet of a known stream: header bytes still owed are skipped, the rest is reported with stream number and time stamp |
| `TsRoundTrip.FrameRecoveredIff` | file/libmpeg/tsmux.c:265-342 | the packets of a frame give back exactly its bytes, stream number and (pts mod 2^33)/90 if and only if no continuation payload looks like a PES header |
| `TsRoundTrip.CallRecoveredIff` | file/libmpeg/tsmux.c:349-395 | the same for a whole call with its tables; a key frame also tunes a reader that knew nothing |
| `TsRoundTrip.RunTunes` | file/libmpeg/tsdemux.c:91-190 | whatever the frames hold, at the end of every run that starts with a key frame the program and all its streams are known |
| `TsRoundTrip.LookalikeFrame` | file/libmpeg/tsdemux.c:51-89 | a frame of 166 bytes that no tuned reader recovers |
| `TsRoundTrip.RunRecoveredIff` | file/libmpeg/tsmux.c:349-395 | whole runs that start with a key frame: every frame is recovered exactly if and only if none of them holds such a payload, and at the end the program and all its streams are known |
| `TsForeign.PlainPacket` | file/libmpeg/tsdemux.c:5-49 | a packet of another writer without adaptation field: PID and 184 bytes of payload, clock unchanged |
| `TsForeign.PaddedPacket` | file/libmpeg/tsdemux.c:5-49 | one with any adaptation field: PID, the payload behind it, and its clock reference if it has one |
| `TsForeign.EmptyPacket` | file/libmpeg/tsdemux.c:5-28 | packets that say they have no payload have none |
| `TsForeign.ForeignPat` | file/libmpeg/tsdemux.c:102-134 | an association table of any number of programs: the PID of the first is learned |
| `TsForeign.ForeignPmt` | file/libmpeg/tsdemux.c:137-173 | a program map with any descriptors: PID and type of the streams in order, of the first four of them |
| `TsForeign.LongTableIgnored` | file/libmpeg/tsdemux.c:109-114 | a table whose section does not fit its packet changes nothing |
| `TsForeign.ForeignPes` | file/libmpeg/tsdemux.c:51-85 | a PES packet with a header of any length, cut into packets behind its ninth byte: exactly what follows the header is reported, under its time stamp, also where the header goes on in later packets |
| `TsForeign.HeaderParsed` | file/libmpeg/pes.c:125-184 | of any PES header of a media stream the parser finds the end and the time stamp |
| `TsContinuity.PayloadsMakePes` | file/libmpeg/tsmux.c:265-342 | the payloads of a frame's packets, put together, are its PES packet |
| `TsContinuity.RunCounters` | file/libmpeg/tsmux.c:286-342 | in every run, on every PID in use, the continuity counter advances by exactly 1 modulo 16 from packet to packet, across calls |
| `TsContinuity.RunFramed` | file/libmpeg/tsmux.c:61-98 | in every run every packet has 188 bytes, the sync byte, and an adaptation field that ends where the payload begins |
| `TsDemux.NextInStream` | file/libmpeg/tsdemux.c:192-226 | on concatenated packets the sync search finds them one after the other |
| `TsDemux.DrainPackets` | file/libmpeg/tsdemux.c:192-226 | reading concatenated packets from their bytes, sync byte by sync byte, is reading them one by one |
| `TsContinuity.RunDrained` | file/libmpeg/tsdemux.c:192-226 | the same for the concatenated output of every run of the multiplexer |
| `TsDemux.ReadsInsideIff` | file/libmpeg/tsdemux.c:206-223 | what lts_ts_demux reads depends on nothing behind its buffer if and only if a whole packet follows the first sync byte |
| `TsDemux.ReadsOutside` | file/libmpeg/tsdemux.c:206-223 | a buffer of 188 bytes of which 187 behind it are read |
| `TsDemux.GarbageSkippedIff` | file/libmpeg/tsdemux.c:206-223 | garbage in front of a packet is skipped if and only if it holds no sync byte |
| `TsDemux.DrainBehindGarbage` | file/libmpeg/tsdemux.c:192-226 | a stream entered behind such garbage, for example in the middle of a packet, is read from its next packet on |
| `TsCodec.Muxer.AppendRest` | file/libmpeg/tsmux.c:324-339 | the loop over the packets after the first: bytes appended and counter of that stream advanced by the number of packets, others unchanged |
| `TsCodec.Muxer.AppendSingle` | file/libmpeg/tsmux.c:286-300 | the branch for a frame that fits one packet: its bytes, and the counter of its stream advanced by one |
| `TsCodec.Muxer.AppendMany` | file/libmpeg/tsmux.c:301-340 | the branch for a frame that needs more: all its packets, and the counter advanced by their number |
| `TsCodec.Muxer.AppendFrame` | file/libmpeg/tsmux.c:265-342 | succeeds if and only if the destination has room for every packet; otherwise no counter moves |
| `TsCodec.Muxer.Put` | file/libmpeg/tsmux.c:349-395 | in place: tables before key frames, then the frame's packets; the bytes are those of the packets that TsLayout.RunShaped and TsLayout.HeaderLayout describe; fails without room, or for a wrong stream or no data, without touching the counters |
| `TsCodec.Demuxer.HandlePat` | file/libmpeg/tsdemux.c:98-131 | in place: number of programs and PMT PID as the pure reader |
| `TsCodec.Demuxer.HandlePmt` | file/libmpeg/tsdemux.c:133-168 | in place: the stream table as the pure reader, for every packet |
| `TsCodec.Demuxer.HandleEs` | file/libmpeg/tsdemux.c:51-89 | in place: header bytes still owed, time stamps and reported bytes as the pure reader |
| `TsCodec.Demuxer.HandlePack` | file/libmpeg/tsdemux.c:91-190 | in place: dispatch by PID as the pure reader |
| `TsCodec.Demuxer.Take` | file/libmpeg/tsdemux.c:192-226 | skips to the first sync byte and takes one packet, from memory behind the buffer if it must; 0 for too few bytes or no sync byte, -1 for none; in sync_only mode it only advances |
| `PsMux.PiecesCount` | file/libmpeg/psmux.c:282-286 | the frame is cut into as many PES packets as the loop counts |
| `PsMux.FlattenPieces` | file/libmpeg/psmux.c:281-299 | the pieces put together are the frame |
| `PsMux.RunPacksValid` | file/libmpeg/psmux.c:190-302 | every pack of every run has lengths that fit their fields |
| `PsLayout.PackLayout` | file/libmpeg/psmux.c:77-102 | the pack header bit by bit, as section 2.5.3.3 of ISO/IEC 13818-1 lays it out: clock reference modulo 2^33 in three groups with markers, extension 0, mux rate, no stuffing |
| `PsLayout.SystemLayout` | file/libmpeg/psmux.c:104-143 | the system header bit by bit: rate bound, number of audio and of video streams, lock flags, buffer bounds |
| `PsLayout.CountIsChosen` | file/libmpeg/psmux.c:119-137 | the two bounds are the numbers of streams of each kind |
| `PsLayout.MapLayout` | file/libmpeg/psmux.c:145-185 | the stream map bit by bit: type and id of every stream, lengths, a checksum of zero |
| `PsLayout.CallLayout` | file/libmpeg/psmux.c:190-302 | one call bit by bit: pack header with the frame's time, before a key frame system header and stream map in this order, then the frame in pieces, each behind its PES header |
| `PsLayout.RunLayout` | file/libmpeg/psmux.c:190-302 | the same for every run |
| `PsLayout.PieceLengthNearest` | file/libmpeg/psmux.c:268-276 | pieces have the permitted length, 1000 to 65000, that is nearest to the wanted one |
| `PsRoundTrip.ReadMap` | file/libmpeg/psmux.c:145-185 | the reader learns stream id and type of every stream, in order, from the generated stream map |
| `PsRoundTrip.TakePack` | file/libmpeg/psdemux.c:151-293 | a generated pack at the head of the buffer, whatever follows it, is consumed exactly and has its effect |
| `PsRoundTrip.TakePart` | file/libmpeg/psdemux.c:8-47 | on any proper part of a generated pack the reader returns a value <= 0, reports nothing and leaves the program unchanged |
| `PsRoundTrip.TakeBehindGarbage` | file/libmpeg/psdemux.c:171-221 | a pack behind garbage that does not look like a start code is found and taken, at the start of a stream and later |
| `PsDemux.ScanSkipsIff` | file/libmpeg/psdemux.c:171-221 | the scan stops at a start code if and only if nothing before it looks like one |
| `PsDemux.NothingSeen` | file/libmpeg/psdemux.c:280-292 | when no start code is seen nothing is consumed, except that 2n - 9 bytes are for buffers of five to nine bytes |
| `PsDemux.DropsUnseenIff` | file/libmpeg/psdemux.c:280-292 | bytes at which no start code was looked for are then dropped if and only if there are six to nine |
| `PsDemux.StartCodeDropped` | file/libmpeg/psdemux.c:280-292 | nine bytes ending in a start code that are dropped, though with one byte more it is found |
| `PsDemux.SyncAgrees` | file/libmpeg/psdemux.c:222-242 | sync_only mode advances as the full mode does, and learns and reports nothing |
| `PsRoundTrip.DrainPacks` | file/libmpeg/psdemux.c:151-293 | repeated calls take all complete packs and leave the incomplete one |
| `PsRoundTrip.AnySegmentation` | file/libmpeg/psdemux.c:151-293 | delivering a stream of packs in arbitrary pieces gives the effects of the packs in order and leaves nothing over |
| `PsRoundTrip.FrameReportsCarryFrame` | file/libmpeg/psdemux.c:111-149 | the payloads due for a frame put together are the frame, each with its stream index and (pts mod 2^33)/90 |
| `PsRoundTrip.CallEffects` | file/libmpeg/psmux.c:190-302 | the packs of a call report exactly the PES packets due for its frame, and a key frame tunes the reader |
| `PsRoundTrip.RunRoundTrip` | file/libmpeg/psmux.c:190-302 | whole runs that start with a key frame, arbitrary frame contents, arbitrary pieces: exactly the PES packets due for the frames, in order, nothing left over, program known |
| `PsForeign.StuffedHeader` | file/libmpeg/psdemux.c:8-29 | a pack header of another writer with up to seven stuffing bytes is skipped whole and starts the reader |
| `PsForeign.SkippedPack` | file/libmpeg/psdemux.c:31-60 | a system header of any size, and a pack of a stream that is not in the map, is skipped whole |
| `PsForeign.LengthReadIff` | file/libmpeg/psdemux.c:6-6 | a length in a stream map is read as it was written if and only if its low byte is below 128 and it is below 32768 |
| `PsForeign.ForeignMap` | file/libmpeg/psdemux.c:62-103 | a stream map with any descriptors of such lengths: id and type of the audio and video streams in order, of the first four of them |
| `PsForeign.ForeignPesPack` | file/libmpeg/psdemux.c:111-149 | a PES packet with a header of any length: stream, time stamp and exactly the bytes behind the header |
| `PsCodec.PutFrame` | file/libmpeg/psmux.c:190-302 | lts_ps_stream returns the length and bytes of the frame's packs, which PsLayout.CallLayout gives bit by bit; -1 for an empty frame |
| `PsCodec.GbWriteFrame` | file/libmpeg/ps/psmux.cpp:262-295 | the split loop writes the PES packets of the frame's pieces, the last one shorter |
| `PsCodec.Demuxer.TakePack` | file/libmpeg/psdemux.c:151-293 | in place: scan for a start code and handle one pack, for every buffer, as the pure reader; in sync_only mode only its size is looked at |
| `PsCodec.Demuxer.HandleMap` | file/libmpeg/psdemux.c:62-103 | in place: the loop over the entries of any map, with its signed lengths, leaves the stream table of the pure reader |
| `PsCodec.Demuxer.HandlePes` | file/libmpeg/psdemux.c:111-149 | in place: the search for the stream, and the report of any packet, also one whose length is smaller than its header |
| `PsCodec.Demuxer.HandlePack` | file/libmpeg/psdemux.c:244-273 | in place: the switch over the pack type as the pure reader |
| `RtpH264.FramePackets` | protocol/librtp/rtpmux_h264.cpp:70-177 | the packets of a frame hand over the frame before and leave this one held, across fragmentation and time stamp wrap-around |
| `RtpH264.RunRoundTrip` | protocol/librtp/rtpdemux_h264.cpp:79-138 | whole runs of frames of at least two bytes without loss: every frame is handed over one frame late, in order, with its own time stamp and source; frames that leave nothing are skipped; the last is held |
| `RtpH264.ContentIff` | protocol/librtp/rtpdemux_h264.cpp:112-135 | a frame comes back as sent behind 00 00 00 01 if and only if it was fragmented or is of type 1, 5, 6, 7 or 8; nothing is left of it if and only if it fits one packet and has another type, 28 excepted |
| `RtpH264.KnownRun` | protocol/librtp/rtpdemux_h264.cpp:79-138 | runs of such frames: the callbacks are exactly the frames but the last, in order, each behind a start code |
| `RtpH264.SkippingRun` | protocol/librtp/rtpdemux_h264.cpp:79-138 | any run of frames of at least two bytes without a single-packet frame of type 28: what was called back, followed by what is held, are the fragmented and known frames in order, each behind a start code, and the last frame is the one held |
| `RtpH264.MangledFrame` | protocol/librtp/rtpdemux_h264.cpp:120-135 | a frame of two bytes that comes back neither whole nor empty |
| `RtpH264.RunNumbered` | protocol/librtp/rtpmux_h264.cpp:87-115 | over a whole run the sequence numbers are consecutive modulo 2^16 |
| `RtpLayout.RunSpecified` | protocol/librtp/rtpmux_h264.cpp:70-178 | every packet of every run with all its fields: version 2, type 96, marker on the last packet of a frame, consecutive sequence numbers, 3600 ticks a frame, source; frames up to 1440 bytes as they are, longer ones in fragments of 1440 with start and end flags |
| `RtpLayout.HeaderLayout` | protocol/librtp/rtpmux_h264.cpp:76-99 | the packet header bit by bit, as section 5.1 of RFC 3550 lays it out |
| `RtpLayout.FuLayout` | protocol/librtp/rtpmux_h264.cpp:123-164 | the two bytes in front of a fragment bit by bit, as section 5.8 of RFC 6184 lays them out |
| `RtpLayout.HandedOverIff` | protocol/librtp/rtpdemux_h264.cpp:79-107 | the reader hands a frame over if and only if a packet of at least 14 bytes has a later time stamp or one that has just wrapped; shorter and older packets change nothing |
| `RtpPicture.PictureHeld` | protocol/librtp/rtpdemux_h264.cpp:109-137 | pictures of several units under one time stamp, each in one packet or in fragments: what the reader puts together |
| `RtpPicture.PictureWholeIff` | protocol/librtp/rtpdemux_h264.cpp:109-137 | that is the units it keeps, each behind a start code, if and only if none but the first of them is fragmented |
| `RtpPicture.SliceBehindSet` | protocol/librtp/rtpdemux_h264.cpp:120-135 | a fragmented slice behind a parameter set loses its start code and its first byte |
| `RtpH264.SomeFragments` | protocol/librtp/rtpdemux_h264.cpp:120-135 | when any of a frame's fragments arrive, in any order and any number of times, the frame put together is its first byte followed by their bytes as they came |
| `RtpH264.LossIff` | protocol/librtp/rtpdemux_h264.cpp:120-135 | with losses only, that is the frame if and only if no fragment is missing |
| `RtpH264.RepeatIff` | protocol/librtp/rtpdemux_h264.cpp:120-135 | with repetitions only, if and only if no fragment is repeated |
| `RtpH264.LossAndRepeatCancel` | protocol/librtp/rtpdemux_h264.cpp:120-135 | a frame for which a loss and a repetition together go unnoticed |
| `RtpH264.FragmentsFlagged` | protocol/librtp/rtpmux_h264.cpp:113-173 | start bit on the first fragment only, end bit and marker on the last only, and the NAL unit's own header bits on all (section 5.8 of RFC 6184) |
| `RtpH264.FragmentLengths` | protocol/librtp/rtpmux_h264.cpp:113-173 | every packet of a fragmented frame but the last has the full length |
| `RtpH264.Packetiser.AppendFragment` | protocol/librtp/rtpmux_h264.cpp:113-173 | one pass of the fragmentation loop appends one packet and counts it |
| `RtpH264.Packetiser.AppendFragments` | protocol/librtp/rtpmux_h264.cpp:113-173 | the loop leaves exactly the fragments, their number and the length of the last |
| `RtpH264.Packetiser.SetFrame` | protocol/librtp/rtpmux_h264.cpp:70-177 | the buffer holds exactly the packets of the frame; sequence number and time stamp advance modulo their width |
| `RtpH264.Packetiser.PacketAt` | protocol/librtp/rtpmux_h264.cpp:179-189 | cutting the buffer by packet length and last packet length gives each packet back |
| `RtpH264.Depacketiser.SetPacket` | protocol/librtp/rtpdemux_h264.cpp:79-138 | state and callbacks as the pure reader, for every packet; -1 exactly for short and late packets |
| `AnnexB.ParseExtends` | file/libh26x/h264demux.cpp:30-69 | a frame that is found stays the same when more bytes follow |
| `AnnexB.AnySegmentation` | file/libh26x/h264demux.cpp:71-95 | the frames, and what is left, are those of the whole input, however it is read in blocks |
| `AnnexB.SplitJoinedIff` | file/libh26x/h264demux.cpp:30-95 | units joined by start codes of three or four bytes, in any mix, come out unchanged, all but the last, if and only if none of them contains 00 00 01, none ends in zero in front of a three-byte code, and the last is long enough for its code to be seen and holds no start code that is seen |
| `AnnexB.HiddenStartCode` | file/libh26x/h264demux.cpp:30-95 | two units, of which the first holds a start code, that do not come out as they went in |
| `AnnexB.TrailingZeroLost` | file/libh26x/h264demux.cpp:49-58 | two units, of which the first ends in zero in front of a three-byte code, that do not come out as they went in |
| `AnnexB.FetchTakesNext` | file/libh26x/h264demux.cpp:128-195 | reading on until a frame is complete takes exactly the next frame of the file, or none is left |
| `AnnexB.ProbeKeepsFrames` | file/libh26x/h264demux.cpp:215-235 | GetConfig leaves the frames to come unchanged and succeeds if and only if both parameter sets are known or among the frames still to be cut |
| `AnnexB.ProbeCuts` | file/libh26x/h264demux.cpp:215-235 | GetConfig cuts frames until it has both parameter sets and not one more, keeps them for GetFrame, and leaves the last set of each kind |
| `AnnexB.SetsAreLast` | file/libh26x/h264demux.cpp:156-192 | in any mix of calls the stored parameter sets are the last frames of type 7 and 8 among those cut so far |
| `AnnexB.LastOfIs` | file/libh26x/h264demux.cpp:156-192 | the last frame of a type is that frame, or what was there before if there is none |
| `AnnexB.AnyInterleaving` | file/libh26x/h264demux.cpp:215-253 | for every mix of GetConfig and GetFrame, GetFrame returns the frames in order, then fails |
| `AnnexB.FileOfUnits` | file/libh26x/h264demux.cpp:30-253 | all together: units in a file, any blocks, any mix of calls |
| `AnnexB.H264File.ParseFrame` | file/libh26x/h264demux.cpp:30-69 | the two scans find the leftmost start code and the leftmost end behind it |
| `AnnexB.H264File.ReadOneFrame` | file/libh26x/h264demux.cpp:71-95 | cuts the frame out of the buffer behind a start code, or changes nothing |
| `AnnexB.H264File.FetchFrame` | file/libh26x/h264demux.cpp:128-195 | the read loop as the pure reader; parameter sets are remembered |
| `AnnexB.H264File.GetConfig` | file/libh26x/h264demux.cpp:215-235 | the probe loop as the pure reader; no frame is lost to the caller |
| `AnnexB.H264File.GetFrame` | file/libh26x/h264demux.cpp:237-253 | probed frames first, then the file |
| `Conference.Conservation` | app/conference/confserver/confmanager.cpp:25-51 | for every interleaving, what an endpoint sent is what was written of it to some other endpoint, in order, followed by its queue |
| `Conference.QueueIs` | app/conference/confserver/confmanager.cpp:25-94 | for every interleaving, who takes part and what each queue holds follow from the history alone |
| `Conference.ServedGot` | app/conference/confserver/confmanager.cpp:68-90 | one round pops each non-empty queue once and sends its front to everyone else exactly once; RoundInOrder and WrittenToFirst say in which order and where to |
| `Conference.RoundInOrder` | app/conference/confserver/confmanager.cpp:68-90 | a round writes in the order of the senders' ports, and for each sender in the order of the receivers' ports |
| `Conference.Forwarding` | app/conference/confserver/confmanager.cpp:53-94 | for every interleaving, endpoint j is sent of i exactly the packets forwarded since j joined: in order, no gap, no repetition, no echo |
| `Conference.FirstTwoMissNothing` | app/conference/confserver/confmanager.cpp:60-66 | an endpoint that joins first or second misses nothing that is forwarded of anyone |
| `Conference.RoundsDrain` | app/conference/confserver/confmanager.cpp:53-94 | with two endpoints, n rounds forward n packets of every queue that has them |
| `Conference.AllDelivered` | app/conference/confserver/confmanager.cpp:53-94 | once arrivals cease, enough rounds deliver every packet that was still queued when j joined |
| `Conference.AddressIsFirst` | app/conference/confserver/confmanager.cpp:28-40 | an endpoint keeps the address its first packet came from |
| `Conference.FirstIsJoined` | app/conference/confserver/confmanager.cpp:28-40 | that is the address of the packet with which the port joined |
| `Conference.WrittenToFirst` | app/conference/confserver/confmanager.cpp:76-88 | for every history, every datagram written goes from one endpoint to another, to the socket and host of the first packet that came from the receiving port |
| `Conference.ReachedIffFirst` | app/conference/confserver/confmanager.cpp:28-46 | for every history, some datagram to a port was written to a given host if and only if something was written to the port at all and that host was the first to use it |
| `Conference.SecondHostUnheard` | app/conference/confserver/confmanager.cpp:28-46 | whatever happens later, no datagram is written to a second host on a port in use |
| `Conference.ConfManager.SetPacket` | app/conference/confserver/confmanager.cpp:25-51 | one arrival over the shared map |
| `Conference.ConfManager.SendToOthers` | app/conference/confserver/confmanager.cpp:76-88 | the inner loop writes to everyone but the sender, each at its own address, in key order |
| `Conference.ConfManager.DoRound` | app/conference/confserver/confmanager.cpp:59-92 | one round over the shared map; where its datagrams go and in which order is stated by WrittenToFirst and RoundInOrder |

## Left out

- Sockets, epoll, threads and the RTMP handshake; only partial reads and writes are modelled.
- The onFCPublish reply and the AMF contents of replies and status messages; metadata is a byte string.
- RtmpClient.Client.HandleMessage: whether the handler of any other message throws is a parameter of reception; what the handlers of invoke, notify and media messages do is modelled separately, in Broadcast.
- RtmpClient.Client.Send: chunk_len is positive, because the loop does not end otherwise; AppendAtMost covers the passes of the loop for chunk_len 0.
- An ECMA array as a value nested in another value, and undefined values: the writer has no form for them.
- Amf0.RoundTrip: doubles other than integers are bit patterns; AMF3 is modelled in the reader only, since the repository has no writer for it.
- RtmpPeer.MixedForms: SET_CHUNK messages, since chunk lists are cut with one chunk length; RtmpPeer.RunFollows and RtmpPeer.InterleavedReception cover them.
- TsForeign.ForeignPat: sections that begin behind other bytes; the code does not look at the pointer field.
- TsForeign.ForeignPes: a header whose first nine bytes are in two packets, which the code does not recognise.
- PsCodec.PutFrame: the destination is large enough; the size tests, including the one that pes.c:87 skips when nothing is left, and the segment callback are not modelled. The transport stream writer's size tests are.
- PsCodec.GbWriteFrame: the pack, system and map headers that psmux_writeframe writes before the PES packets are not modelled.
- PsCodec.Demuxer.HandleMap: bytes a malformed map points to outside of the buffer are taken to be zero; inside of it they are read as in the code.
- PsCodec.Demuxer.HandlePes: a packet without a time stamp, for which the code reports an uninitialised number, reports 0.
- TsCodec.Demuxer.HandleEs: a time stamp that is cut off by the end of the packet keeps the old value, where the code reads on behind it.
- More than one program in the multiplexers and demultiplexers.
- TsCodec.Muxer.Put: counters and written lengths are unbounded; the code keeps them in machine integers and uses them modulo 16 or within the frame size.
- Pes.GbMakePesHeader: length + 13 stays within a signed 32-bit integer.
- BitIo.BitsBuffer.Write: widths up to 64 within the buffer, as the code demands; bits_align is not part of the model.
- Golomb.BitReader.ParseCodenum: a complete code must stand at the cursor, because the code reads past the end of the buffer otherwise.
- Golomb.BitReader.ParseSe: 31 leading zeros, where the code overflows a signed integer.
- Golomb.BitReader.ParseAll: 31 leading zeros, where the code overflows a signed integer.
- SPS and PPS field lists, removal of emulation prevention bytes, and the picture size and frame rate derived from them.
- AnnexB.H264File.FetchFrame: reading a file in circles and the values derived from the SPS; blocks are any finite list, and reading past the last one fails.
- RtpH264.RunRoundTrip: frames of fewer than two bytes, whose only packet the reader drops.
- Conference.ConfManager.DoRound: the scratch field that holds the last packet of an endpoint and the pauses between rounds; endpoints are never removed, as in the code.
- tsmux2.cpp and es2ts.cpp, whose packets are not always 188 bytes long, AAC/ADTS, G.711, MP4, RTSP, SDP and SIP, the players and the encoder wrappers: calls into libraries, text, finite tables or duplicates.
