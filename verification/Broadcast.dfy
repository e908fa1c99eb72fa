/**
 * The one-publisher broadcast of the RTMP server: who publishes, who plays, and which audio
 * and video messages reach whom. Every handled message and every closed connection is one
 * atomic step (the server is a single-threaded poll loop).
 */
module Broadcast {
  import opened Bytes

  type Id = nat

  const FLV_KEY_FRAME := 1

  datatype Media = Audio(data: seq<byte>) | Video(data: seq<byte>) {
    /** Reassembly never hands over an empty body, so the first byte is there to be looked at. */
    predicate Key() { Video? && data != [] && data[0] / 16 == FLV_KEY_FRAME }
  }

  /** The fields of an onMetaData message, as an encoded ECMA array. */
  type Metadata = seq<byte>

  /** What is put in a client's send queue: status messages, metadata, clear-stream control, media. */
  datatype Out =
    PlayReset | PlayStart | SampleAccess | PauseNotify | Result | Meta(data: Metadata) | Clear | Forward(m: Media)

  /** What start_playback sends: the metadata only while somebody publishes. */
  function Greeting(published: bool, data: Metadata): seq<Out> {
    [PlayReset, PlayStart, SampleAccess] + if published then [Meta(data)] else []
  }

  datatype Viewer = Viewer(playing: bool, ready: bool, sent: seq<Out>) {
    function Start(published: bool, data: Metadata): Viewer { Viewer(true, false, sent + Greeting(published, data)) }

    function Stop(): Viewer { Viewer(false, ready, sent + [PauseNotify]) }

    /** send_reply, for a transaction that wants one. */
    function Reply(): Viewer { this.(sent := sent + [Result]) }

    function Inform(data: Metadata): Viewer { if playing then this.(sent := sent + [Meta(data)]) else this }

    /** The part of a viewer in the broadcast of one message. */
    function Receive(m: Media): Viewer {
      match m
      case Audio(_) => if ready then this.(sent := sent + [Forward(m)]) else this
      case Video(_) =>
        if !playing then this
        else if m.Key() && !ready then this.(ready := true, sent := sent + [Clear] + [Forward(m)])
        else if ready then this.(sent := sent + [Forward(m)])
        else this
    }
  }

  datatype State = State(viewers: map<Id, Viewer>, publisher: Option<Id>, metadata: Metadata, nextId: Id)

  const INIT := State(map[], None, [], 0)

  /**
   * `Play` is play, play2 or un-pause, and `Answer` the reply to an invoke message; `SetData` is new
   * metadata and `Relay` an audio or video message from a client.
   */
  datatype Event =
    | Connect
    | Close(c: Id)
    | Publish(c: Id)
    | Play(c: Id)
    | Pause(c: Id)
    | Answer(c: Id)
    | SetData(c: Id, data: Metadata)
    | Relay(c: Id, m: Media)

  /** Every viewer waits for a key frame again. */
  function Unready(viewers: map<Id, Viewer>): (r: map<Id, Viewer>)
    ensures r.Keys == viewers.Keys
  {
    map k | k in viewers :: viewers[k].(ready := false)
  }

  function Offer(viewers: map<Id, Viewer>, m: Media): (r: map<Id, Viewer>)
    ensures r.Keys == viewers.Keys
  {
    map k | k in viewers :: viewers[k].Receive(m)
  }

  function Announce(viewers: map<Id, Viewer>, data: Metadata): (r: map<Id, Viewer>)
    ensures r.Keys == viewers.Keys
  {
    map k | k in viewers :: viewers[k].Inform(data)
  }

  /** Events of clients that do not exist, and messages refused by an exception, change nothing. */
  function Step(s: State, e: Event): State {
    match e
    case Connect => s.(viewers := s.viewers[s.nextId := Viewer(false, false, [])], nextId := s.nextId + 1)
    case Close(c) =>
      var rest := s.viewers - {c};
      if s.publisher == Some(c) then s.(viewers := Unready(rest), publisher := None) else s.(viewers := rest)
    case Publish(c) =>
      if c in s.viewers && s.publisher.None? then s.(publisher := Some(c)) else s
    case Play(c) =>
      if c in s.viewers then s.(viewers := s.viewers[c := s.viewers[c].Start(s.publisher.Some?, s.metadata)]) else s
    case Pause(c) => if c in s.viewers then s.(viewers := s.viewers[c := s.viewers[c].Stop()]) else s
    case Answer(c) => if c in s.viewers then s.(viewers := s.viewers[c := s.viewers[c].Reply()]) else s
    case SetData(c, data) =>
      if s.publisher == Some(c) then s.(metadata := data, viewers := Announce(s.viewers, data)) else s
    case Relay(c, m) =>
      if s.publisher == Some(c) then s.(viewers := Offer(s.viewers, m)) else s
  }

  function Run(trace: seq<Event>): State {
    if trace == [] then INIT else Step(Run(trace[..|trace| - 1]), trace[|trace| - 1])
  }

  // ---------------------------------------------------------------- what every run keeps

  predicate Inv(s: State) {
    && (forall c <- s.viewers :: c < s.nextId)
    && (s.publisher.Some? ==> s.publisher.value in s.viewers)
    && (s.publisher.None? ==> forall c <- s.viewers :: !s.viewers[c].ready)
  }

  /** The publisher is nobody or a live client, and nobody is ready while nobody publishes. */
  lemma {:induction false} RunInv(trace: seq<Event>)
    ensures Inv(Run(trace))
  {
    if trace != [] {
      RunInv(trace[..|trace| - 1]);
    }
  }

  // ---------------------------------------------------------------- who is there and who publishes

  function Connects(trace: seq<Event>): nat {
    if trace == [] then 0 else Connects(trace[..|trace| - 1]) + if trace[|trace| - 1] == Connect then 1 else 0
  }

  /** Client `c`, the one with that many connections before its own, has come and has not gone since. */
  ghost predicate Live(trace: seq<Event>, c: Id) {
    exists i :: 0 <= i < |trace| && LiveSince(trace, i, c)
  }

  ghost predicate LiveSince(trace: seq<Event>, i: nat, c: Id)
    requires i < |trace|
  {
    trace[i] == Connect && Connects(trace[..i]) == c && forall j :: i < j < |trace| ==> trace[j] != Close(c)
  }

  /** A live client asked to publish when nobody did, and has not gone since. */
  ghost predicate Publishes(trace: seq<Event>, c: Id)
    decreases |trace|, 1
  {
    exists i :: 0 <= i < |trace| && PublishesSince(trace, i, c)
  }

  ghost predicate PublishesSince(trace: seq<Event>, i: nat, c: Id)
    requires i < |trace|
    decreases |trace|, 0
  {
    && trace[i] == Publish(c) && Live(trace[..i], c)
    && (forall d :: !Publishes(trace[..i], d))
    && forall j :: i < j < |trace| ==> trace[j] != Close(c)
  }

  ghost predicate Published(trace: seq<Event>) {
    exists d :: Publishes(trace, d)
  }

  /** The data of the last metadata message of a client that was the publisher at the time. */
  ghost function LastMeta(trace: seq<Event>): Metadata {
    if trace == [] then []
    else
      var before, e := trace[..|trace| - 1], trace[|trace| - 1];
      if e.SetData? && Publishes(before, e.c) then e.data else LastMeta(before)
  }

  lemma LiveExtends(trace: seq<Event>, e: Event, c: Id)
    ensures Live(trace + [e], c) <==> (e == Connect && Connects(trace) == c) || (Live(trace, c) && e != Close(c))
  {
    hide Connects;
    var t := trace + [e];
    assert t[..|trace|] == trace && t[|trace|] == e;
    assert forall i :: 0 <= i < |trace| ==> t[..i] == trace[..i] && t[i] == trace[i];
    assert LiveSince(t, |trace|, c) <==> e == Connect && Connects(trace) == c;
    forall i | 0 <= i < |trace|
      ensures LiveSince(t, i, c) <==> LiveSince(trace, i, c) && e != Close(c)
    {
      assert e != Close(c) || t[|trace|] == Close(c);
    }
    hide LiveSince;
  }

  lemma PublishesExtends(trace: seq<Event>, e: Event, c: Id)
    ensures Publishes(trace + [e], c) <==>
            (e == Publish(c) && Live(trace, c) && !Published(trace)) || (Publishes(trace, c) && e != Close(c))
  {
    var t := trace + [e];
    PublishesNow(trace, e, c);
    forall i | 0 <= i < |trace|
      ensures PublishesSince(t, i, c) <==> PublishesSince(trace, i, c) && e != Close(c)
    {
      PublishesSinceExtends(trace, e, i, c);
    }
    hide PublishesSince, Live;
  }

  lemma PublishesNow(trace: seq<Event>, e: Event, c: Id)
    ensures PublishesSince(trace + [e], |trace|, c) <==> e == Publish(c) && Live(trace, c) && !Published(trace)
  {
    hide Live;
    assert (trace + [e])[..|trace|] == trace;
  }

  lemma PublishesSinceExtends(trace: seq<Event>, e: Event, i: nat, c: Id)
    requires i < |trace|
    ensures PublishesSince(trace + [e], i, c) <==> PublishesSince(trace, i, c) && e != Close(c)
  {
    hide Live, Publishes;
    var t := trace + [e];
    assert t[..i] == trace[..i] && t[i] == trace[i];
    assert t[|trace|] == e && forall j :: 0 <= j < |trace| ==> t[j] == trace[j];
  }

  lemma StepTable(s: State, e: Event, c: Id)
    ensures var s1 := Step(s, e);
            && s1.nextId == s.nextId + (if e == Connect then 1 else 0)
            && (c in s1.viewers <==> (e == Connect && s.nextId == c) || (c in s.viewers && e != Close(c)))
            && (s1.publisher == Some(c) <==>
                (e == Publish(c) && c in s.viewers && s.publisher.None?) || (s.publisher == Some(c) && e != Close(c)))
  {
  }

  /** The client table holds exactly the clients that have come and not gone. */
  lemma {:induction false} TableIsHistory(trace: seq<Event>, c: Id)
    ensures Run(trace).nextId == Connects(trace) && (c in Run(trace).viewers <==> Live(trace, c))
    decreases |trace|
  {
    hide Live, Step;
    if trace == [] {
      NobodyYet(c);
    } else {
      var t, e := trace[..|trace| - 1], trace[|trace| - 1];
      assert trace == t + [e];
      TableIsHistory(t, c);
      LiveExtends(t, e, c);
      StepTable(Run(t), e, c);
    }
  }

  lemma NobodyYet(c: Id)
    ensures !Live([], c) && !Publishes([], c)
  {
  }

  /** The publisher is the one the history says: the first live client to ask, until it goes. */
  lemma {:induction false} PublisherIsHistory(trace: seq<Event>)
    ensures forall c: Id :: Run(trace).publisher == Some(c) <==> Publishes(trace, c)
    ensures Run(trace).publisher.Some? <==> Published(trace)
    decreases |trace|
  {
    hide Live, Publishes, Step;
    if trace == [] {
      forall c: Id ensures !Publishes(trace, c) { NobodyYet(c); }
    } else {
      var t, e := trace[..|trace| - 1], trace[|trace| - 1];
      assert trace == t + [e];
      PublisherIsHistory(t);
      forall c: Id
        ensures Run(trace).publisher == Some(c) <==> Publishes(trace, c)
      {
        PublishesExtends(t, e, c);
        TableIsHistory(t, c);
        StepTable(Run(t), e, c);
      }
    }
    PublisherNamed(trace);
  }

  lemma PublisherNamed(trace: seq<Event>)
    requires forall c: Id :: Run(trace).publisher == Some(c) <==> Publishes(trace, c)
    ensures Run(trace).publisher.Some? <==> Published(trace)
  {
    hide Publishes, Run;
    var p := Run(trace).publisher;
    if p.Some? {
      assert Publishes(trace, p.value);
    }
  }

  /** The stored metadata is that of the last metadata message of a publisher. */
  lemma {:induction false} MetadataIsHistory(trace: seq<Event>)
    ensures Run(trace).metadata == LastMeta(trace)
    decreases |trace|
  {
    hide Publishes, Published, Unready, Offer, Announce;
    if trace != [] {
      var t := trace[..|trace| - 1];
      MetadataIsHistory(t);
      PublisherIsHistory(t);
    }
  }

  // ---------------------------------------------------------------- the flags, read off the history

  /** The frame type in the upper four bits of the first byte is 1. */
  predicate KeyFrame(m: Media) { m.Video? && m.data != [] && 0x10 <= m.data[0] <= 0x1f }

  /** Events that end the eligibility of client `c` for media: its own restart, or a lost publisher. */
  ghost predicate Resets(trace: seq<Event>, j: nat, c: Id)
    requires j < |trace|
  {
    || trace[j] == Play(c)
    || trace[j] == Close(c)
    || (trace[j].Close? && Publishes(trace[..j], trace[j].c))
  }

  /** Message `k` of the history came from the publisher. */
  ghost predicate Accepted(trace: seq<Event>, k: nat)
    requires k < |trace|
  {
    trace[k].Relay? && Publishes(trace[..k], trace[k].c)
  }

  /** The last word of client `c` about playing was yes. */
  ghost predicate Playing(trace: seq<Event>, c: Id) {
    exists i :: 0 <= i < |trace| && PlayedSince(trace, i, c)
  }

  ghost predicate PlayedSince(trace: seq<Event>, i: nat, c: Id)
    requires i < |trace|
  {
    && trace[i] == Play(c) && Live(trace[..i], c)
    && forall j :: i < j < |trace| ==> trace[j] != Pause(c) && trace[j] != Close(c)
  }

  /** A key frame was accepted while `c` played, and nothing has reset `c` since. */
  ghost predicate Ready(trace: seq<Event>, c: Id) {
    exists k :: 0 <= k < |trace| && KeyFor(trace, k, c) && forall j :: k < j < |trace| ==> !Resets(trace, j, c)
  }

  ghost predicate KeyFor(trace: seq<Event>, k: nat, c: Id)
    requires k < |trace|
  {
    Accepted(trace, k) && KeyFrame(trace[k].m) && Playing(trace[..k], c)
  }

  /** What the history says client `c` is sent for the next event `e`. */
  ghost function Due(trace: seq<Event>, e: Event, c: Id): seq<Out> {
    if e == Play(c) then
      [PlayReset, PlayStart, SampleAccess] + if Published(trace) then [Meta(LastMeta(trace))] else []
    else if e == Pause(c) then [PauseNotify]
    else if e == Answer(c) then [Result]
    else if e.SetData? then (if Publishes(trace, e.c) && Playing(trace, c) then [Meta(e.data)] else [])
    else if !(e.Relay? && Publishes(trace, e.c)) then []
    else if e.m.Audio? then (if Ready(trace, c) then [Forward(e.m)] else [])
    else if !Playing(trace, c) then []
    else if Ready(trace, c) then [Forward(e.m)]
    else if KeyFrame(e.m) then [Clear, Forward(e.m)]
    else []
  }

  lemma PlayedSinceExtends(trace: seq<Event>, e: Event, i: nat, c: Id)
    requires i < |trace|
    ensures PlayedSince(trace + [e], i, c) <==> PlayedSince(trace, i, c) && e != Pause(c) && e != Close(c)
  {
    hide Live;
    var t := trace + [e];
    assert t[..i] == trace[..i] && t[i] == trace[i];
    assert t[|trace|] == e && forall j :: 0 <= j < |trace| ==> t[j] == trace[j];
  }

  lemma PlayedNow(trace: seq<Event>, e: Event, c: Id)
    ensures PlayedSince(trace + [e], |trace|, c) <==> e == Play(c) && Live(trace, c)
  {
    hide Live;
    assert (trace + [e])[..|trace|] == trace;
  }

  lemma PlayingExtends(trace: seq<Event>, e: Event, c: Id)
    ensures Playing(trace + [e], c) <==>
            (e == Play(c) && Live(trace, c)) || (Playing(trace, c) && e != Pause(c) && e != Close(c))
  {
    hide Live, PlayedSince;
    var t := trace + [e];
    PlayedNow(trace, e, c);
    if Playing(trace, c) {
      var i :| 0 <= i < |trace| && PlayedSince(trace, i, c);
      PlayedSinceExtends(trace, e, i, c);
    }
    if Playing(t, c) {
      var i :| 0 <= i < |t| && PlayedSince(t, i, c);
      if i < |trace| {
        PlayedSinceExtends(trace, e, i, c);
      }
    }
  }

  lemma PrefixFacts(trace: seq<Event>, e: Event, c: Id)
    ensures var t := trace + [e];
            forall k :: 0 <= k < |trace| ==>
              KeyFor(t, k, c) == KeyFor(trace, k, c) && Resets(t, k, c) == Resets(trace, k, c)
  {
    hide Publishes, Playing;
    var t := trace + [e];
    assert forall i :: 0 <= i < |trace| ==> t[..i] == trace[..i] && t[i] == trace[i];
  }

  lemma ReadyExtends(trace: seq<Event>, e: Event, c: Id)
    ensures Ready(trace + [e], c) <==>
            KeyFor(trace + [e], |trace|, c) || (Ready(trace, c) && !Resets(trace + [e], |trace|, c))
  {
    PrefixFacts(trace, e, c);
    hide KeyFor, Resets;
    var t := trace + [e];
    if Ready(trace, c) && !Resets(t, |trace|, c) {
      var k :| 0 <= k < |trace| && KeyFor(trace, k, c) && forall j :: k < j < |trace| ==> !Resets(trace, j, c);
      assert KeyFor(t, k, c);
    }
    if Ready(t, c) {
      var k :| 0 <= k < |t| && KeyFor(t, k, c) && forall j :: k < j < |t| ==> !Resets(t, j, c);
      if k < |trace| {
        assert KeyFor(trace, k, c);
        assert forall j :: k < j < |trace| ==> !Resets(trace, j, c) by {
          forall j | k < j < |trace| ensures !Resets(trace, j, c) { assert !Resets(t, j, c); }
        }
      }
    }
  }

  predicate PlaysIn(s: State, c: Id) { c in s.viewers && s.viewers[c].playing }

  predicate ReadyIn(s: State, c: Id) { c in s.viewers && s.viewers[c].ready }

  lemma StepFlags(s: State, e: Event, c: Id)
    requires Inv(s)
    ensures PlaysIn(Step(s, e), c) <==>
            (e == Play(c) && c in s.viewers) || (PlaysIn(s, c) && e != Pause(c) && e != Close(c))
    ensures ReadyIn(Step(s, e), c) <==>
            || (e.Relay? && s.publisher == Some(e.c) && KeyFrame(e.m) && PlaysIn(s, c))
            || (ReadyIn(s, c) && !(e == Play(c) || e == Close(c) || (e.Close? && s.publisher == Some(e.c))))
  {
    if e.Connect? && c == s.nextId {
      assert c !in s.viewers;
    }
  }

  /** The two flags of a client are exactly what the history of the server says they should be. */
  lemma {:induction false} FlagsAreHistory(trace: seq<Event>, c: Id)
    ensures var s := Run(trace);
            (Playing(trace, c) <==> PlaysIn(s, c)) && (Ready(trace, c) <==> ReadyIn(s, c))
  {
    if trace != [] {
      var t, e := trace[..|trace| - 1], trace[|trace| - 1];
      assert trace == t + [e];
      FlagsAreHistory(t, c);
      PlayingExtends(t, e, c);
      ReadyExtends(t, e, c);
      RunInv(t);
      TableIsHistory(t, c);
      PublisherIsHistory(t);
      assert trace[..|t|] == t;
      hide Playing, Ready, Live, Publishes, Published;
      var s := Run(t);
      assert Run(trace) == Step(s, e);
      assert KeyFor(trace, |t|, c) <==> e.Relay? && s.publisher == Some(e.c) && KeyFrame(e.m) && Playing(t, c);
      assert Resets(trace, |t|, c) <==> e == Play(c) || e == Close(c) || (e.Close? && s.publisher == Some(e.c));
      hide KeyFor, Resets, Run, Step, PlaysIn, ReadyIn;
      StepFlags(s, e, c);
    }
  }

  /** For every history and every next event, a live client is sent exactly what is due to it. */
  lemma SentIsDue(trace: seq<Event>, e: Event, c: Id)
    requires Live(trace, c) && e != Close(c)
    ensures c in Run(trace).viewers && c in Run(trace + [e]).viewers
    ensures Run(trace + [e]).viewers[c].sent == Run(trace).viewers[c].sent + Due(trace, e, c)
  {
    hide Playing, Ready, Live, Publishes, Published, LastMeta;
    FlagsAreHistory(trace, c);
    TableIsHistory(trace, c);
    PublisherIsHistory(trace);
    MetadataIsHistory(trace);
    RunInv(trace);
    assert (trace + [e])[..|trace|] == trace;
    assert Run(trace + [e]) == Step(Run(trace), e);
    var v := Run(trace).viewers[c];
    assert v.sent + [] == v.sent;
    if e.Relay? {
      assert v.sent + [Clear] + [Forward(e.m)] == v.sent + [Clear, Forward(e.m)];
    }
  }

  /** Everything client `c` should have been sent since it connected, from the history alone. */
  ghost function Log(trace: seq<Event>, c: Id): seq<Out> {
    if trace == [] then []
    else
      var before, e := trace[..|trace| - 1], trace[|trace| - 1];
      if e == Connect && Connects(before) == c then [] else Log(before, c) + Due(before, e, c)
  }

  /** Over whole runs: the messages sent to a live client are what the history says, no more and no less. */
  lemma {:induction false} SentIsLog(trace: seq<Event>, c: Id)
    requires Live(trace, c)
    ensures c in Run(trace).viewers && Run(trace).viewers[c].sent == Log(trace, c)
    decreases |trace|
  {
    hide Live, Due, Connects, Step;
    if trace == [] {
      NobodyYet(c);
    } else {
      var t, e := trace[..|trace| - 1], trace[|trace| - 1];
      assert trace == t + [e];
      LiveExtends(t, e, c);
      TableIsHistory(t, c);
      if e == Connect && Connects(t) == c {
        NewcomerEmpty(Run(t));
      } else {
        SentIsLog(t, c);
        SentIsDue(t, e, c);
      }
    }
  }

  lemma NewcomerEmpty(s: State)
    ensures s.nextId in Step(s, Connect).viewers && Step(s, Connect).viewers[s.nextId].sent == []
  {
  }

  /**
   * Every client that is ready was switched on by a key frame that was sent to it together
   * with a clear-stream control, and since then it has neither restarted nor lost its publisher.
   */
  lemma {:induction false} GateWasOpened(trace: seq<Event>, c: Id) returns (k: nat)
    requires Ready(trace, c)
    ensures k < |trace| && trace[k].Relay? && KeyFrame(trace[k].m)
    ensures Due(trace[..k], trace[k], c) == [Clear, Forward(trace[k].m)]
    ensures forall j :: k < j < |trace| ==> !Resets(trace, j, c)
  {
    hide Publishes, Published, LastMeta, Playing;
    var t, e := trace[..|trace| - 1], trace[|trace| - 1];
    assert trace == t + [e] && trace[..|t|] == t;
    ReadyExtends(t, e, c);
    PrefixFacts(t, e, c);
    hide Ready;
    if Ready(t, c) && !Resets(trace, |t|, c) {
      k := GateWasOpened(t, c);
      assert t[..k] == trace[..k];
    } else {
      k := |t|;
      if Ready(t, c) {
        assert false;
      }
    }
  }

  /**
   * Whenever a client is sent audio or video, the history holds an earlier (or this very) step,
   * within the current publisher's session and since the client last started playing, at which
   * the client was sent a clear-stream control followed by a key frame.
   */
  lemma MediaIsGated(trace: seq<Event>, e: Event, c: Id, m: Media) returns (k: nat)
    requires Forward(m) in Due(trace, e, c)
    ensures var t := trace + [e];
            && k < |t| && t[k].Relay? && KeyFrame(t[k].m)
            && Due(t[..k], t[k], c) == [Clear, Forward(t[k].m)]
            && forall j :: k < j < |t| ==> !Resets(t, j, c)
  {
    hide Publishes, Published, LastMeta, Playing, Ready;
    var t := trace + [e];
    assert t[..|trace|] == trace;
    ReadyExtends(trace, e, c);
    if Ready(trace, c) && !Resets(t, |trace|, c) {
      k := GateWasOpened(trace, c);
      PrefixFacts(trace, e, c);
      assert t[..k] == trace[..k];
    } else {
      k := |trace|;
    }
  }

  /**
   * A paused client until it plays again: it is not playing, and it stays ready exactly if it was
   * ready and neither it nor its publisher has gone.
   */
  lemma {:induction false} WhilePaused(trace: seq<Event>, c: Id, more: seq<Event>)
    requires Play(c) !in more
    ensures var t := trace + [Pause(c)] + more;
            && !Playing(t, c)
            && (Ready(t, c) <==> Ready(trace, c) && forall j :: |trace| < j < |t| ==> !Resets(t, j, c))
    decreases |more|
  {
    hide Live, Publishes, Playing, Ready;
    var t := trace + [Pause(c)] + more;
    if more == [] {
      assert t == trace + [Pause(c)];
      PlayingExtends(trace, Pause(c), c);
      ReadyExtends(trace, Pause(c), c);
    } else {
      var front, e := more[..|more| - 1], more[|more| - 1];
      var before := trace + [Pause(c)] + front;
      assert t == before + [e] && t[..|before|] == before && e in more;
      WhilePaused(trace, c, front);
      PlayingExtends(before, e, c);
      ReadyExtends(before, e, c);
      PrefixFacts(before, e, c);
      hide Resets;
    }
  }

  /**
   * However long ago a client paused, it is sent nothing of the publisher's message exactly if the
   * message is video, or the client was not ready when it paused, or has lost its publisher since.
   */
  lemma PausedSilenceIff(trace: seq<Event>, c: Id, more: seq<Event>, p: Id, m: Media)
    requires Play(c) !in more
    requires Publishes(trace + [Pause(c)] + more, p)
    ensures var t := trace + [Pause(c)] + more;
            Due(t, Relay(p, m), c) == [] <==>
              m.Video? || !Ready(trace, c) || exists j :: |trace| < j < |t| && Resets(t, j, c)
  {
    WhilePaused(trace, c, more);
    hide Publishes, Playing, Ready, Resets;
  }

  lemma RunSnoc(trace: seq<Event>, e: Event)
    ensures Run(trace + [e]) == Step(Run(trace), e)
  {
    assert (trace + [e])[..|trace|] == trace;
  }

  /** Two clients, of which the first publishes and the second plays. */
  const AUDIENCE: seq<Event> := [Connect] + [Connect] + [Publish(0)] + [Play(1)]

  lemma AudienceState()
    ensures var v, hello := Viewer(false, false, []), Greeting(true, []);
            Run(AUDIENCE) == State(map[0 := v, 1 := Viewer(true, false, hello)], Some(0), [], 2)
  {
    var t1 := [Connect] + [Connect];
    var t2 := t1 + [Publish(0)];
    RunSnoc([], Connect);
    assert [] + [Connect] == [Connect];
    RunSnoc([Connect], Connect);
    RunSnoc(t1, Publish(0));
    RunSnoc(t2, Play(1));
    assert Run([]) == INIT;
    hide Run;
    var v := Viewer(false, false, []);
    assert Run(t1) == State(map[0 := v, 1 := v], None, [], 2);
    assert [] + Greeting(true, []) == Greeting(true, []);
  }

  /** A second client that asks while the first publishes changes nothing. */
  lemma SecondRefused()
    ensures Run(AUDIENCE + [Publish(1)]) == Run(AUDIENCE) && Run(AUDIENCE).publisher == Some(0)
  {
    hide Run;
    AudienceState();
    RunSnoc(AUDIENCE, Publish(1));
  }

  /** Its request is not remembered either: when the first has gone, the next to ask publishes. */
  lemma RefusedIsForgotten()
    ensures var t := AUDIENCE + [Publish(1)] + [Close(0)];
            Run(t).publisher == None && Run(t + [Publish(1)]).publisher == Some(1)
  {
    hide Run;
    AudienceState();
    SecondRefused();
    var t := AUDIENCE + [Publish(1)];
    RunSnoc(t, Close(0));
    RunSnoc(t + [Close(0)], Publish(1));
  }

  /** What is left to do for one viewer when nobody comes or goes. */
  lemma ViewerStep(s: State, e: Event, c: Id)
    requires c in s.viewers && (e == Pause(c) || (e.Relay? && s.publisher == Some(e.c)))
    ensures var s1 := Step(s, e);
            && c in s1.viewers && s1.publisher == s.publisher
            && s1.viewers[c] == if e.Relay? then s.viewers[c].Receive(e.m) else s.viewers[c].Stop()
  {
  }

  /** A run in which a client is sent audio although the last thing it did was to pause. */
  lemma PausedClientHearsAudio(a: seq<byte>)
    ensures var s := Run(AUDIENCE + [Relay(0, Video([0x17]))] + [Pause(1)] + [Relay(0, Audio(a))]);
            1 in s.viewers && s.viewers[1].sent ==
              Greeting(true, []) + [Clear] + [Forward(Video([0x17]))] + [PauseNotify] + [Forward(Audio(a))]
  {
    hide Run, Step, Greeting;
    AudienceState();
    var video := Relay(0, Video([0x17]));
    var t1 := AUDIENCE + [video];
    var t2 := t1 + [Pause(1)];
    RunSnoc(AUDIENCE, video);
    RunSnoc(t1, Pause(1));
    RunSnoc(t2, Relay(0, Audio(a)));
    ViewerStep(Run(AUDIENCE), video, 1);
    ViewerStep(Run(t1), Pause(1), 1);
    ViewerStep(Run(t2), Relay(0, Audio(a)), 1);
  }
}
