/** The server's client table and publisher pointer, updated in place by the message handlers. */
module BroadcastServer {
  import opened Bytes
  import opened Broadcast

  class Client {
    const id: Id
    var playing: bool
    var ready: bool
    var sent: seq<Out>

    constructor (id: Id)
      ensures this.id == id && View() == Viewer(false, false, [])
    {
      this.id := id;
      playing, ready, sent := false, false, [];
    }

    function View(): Viewer
      reads this
    {
      Viewer(playing, ready, sent)
    }
  }

  /** Every id belongs to some entry of the table. */
  ghost predicate Named(table: seq<Client?>, ids: set<Id>) {
    forall c <- ids :: exists i :: 0 < i < |table| && table[i] != null && table[i].id == c
  }

  lemma NamedAfterAccept(table: seq<Client?>, ids: set<Id>, client: Client)
    requires |table| > 0 && Named(table, ids)
    ensures Named(table + [client], ids + {client.id})
  {
    var t := table + [client];
    forall c | c in ids + {client.id} ensures exists i :: 0 < i < |t| && t[i] != null && t[i].id == c {
      if c == client.id {
        assert t[|table|].id == c;
      } else {
        var i :| 0 < i < |table| && table[i] != null && table[i].id == c;
        assert t[i].id == c;
      }
    }
  }

  lemma NamedAfterErase(table: seq<Client?>, ids: set<Id>, n: nat)
    requires 0 < n < |table| && table[n] != null && Named(table, ids)
    ensures Named(table[..n] + table[n + 1..], ids - {table[n].id})
  {
    var t := table[..n] + table[n + 1..];
    forall c | c in ids - {table[n].id} ensures exists i :: 0 < i < |t| && t[i] != null && t[i].id == c {
      var i :| 0 < i < |table| && table[i] != null && table[i].id == c;
      assert t[if i < n then i else i - 1] == table[i];
    }
  }

  /** Clients behind the entry of the listening socket, with different ids. */
  ghost predicate WellFormed(table: seq<Client?>, nextId: Id) {
    && |table| > 0 && table[0] == null
    && (forall i :: 0 < i < |table| ==> table[i] != null && table[i].id < nextId)
    && (forall i, j :: 0 < i < j < |table| ==> table[i].id != table[j].id)
  }

  /** Every entry of a table after an erasure stood somewhere else in it before, in the same order. */
  lemma Erased(table: seq<Client?>, n: nat, nextId: Id)
    requires 0 < n < |table| && WellFormed(table, nextId)
    ensures var t := table[..n] + table[n + 1..];
            && WellFormed(t, nextId)
            && (forall i :: 0 < i < |t| ==> t[i] in table && t[i].id != table[n].id)
            && forall c :: c in table && c != table[n] ==> c in t
  {
    var t := table[..n] + table[n + 1..];
    assert forall i :: 0 <= i < n ==> t[i] == table[i];
    assert forall i :: n <= i < |t| ==> t[i] == table[i + 1];
    forall c | c in table && c != table[n]
      ensures c in t
    {
      var k :| 0 <= k < |table| && table[k] == c;
      assert t[if k < n then k else k - 1] == c;
    }
  }

  class Server {
    /** Entry 0 is the listening socket and has no client. */
    var clients: seq<Client?>
    var publisher: Client?
    var metadata: Metadata
    var nextId: Id

    ghost predicate Table()
      reads this`clients, this`nextId
    {
      WellFormed(clients, nextId)
    }

    ghost predicate Valid()
      reads this
    {
      Table() && (publisher != null ==> publisher in clients)
    }

    /** The flags and the log of every client in the table are those of the given viewers. */
    ghost predicate Shows(viewers: map<Id, Viewer>)
      requires Table()
      reads this`clients, this`nextId, clients
    {
      forall i :: 0 < i < |clients| ==> clients[i].id in viewers && viewers[clients[i].id] == clients[i].View()
    }

    ghost predicate Represents(s: State)
      reads this, clients
    {
      && Valid() && Shows(s.viewers) && Named(clients, s.viewers.Keys)
      && s.nextId == nextId && s.metadata == metadata
      && s.publisher == (if publisher == null then None else Some(publisher.id))
    }

    constructor ()
      ensures Represents(INIT)
    {
      clients, publisher, metadata, nextId := [null], null, [], 0;
    }

    /** new_client, after a successful handshake. */
    method Accept(ghost s: State)
      requires Represents(s)
      modifies this
      ensures Represents(Step(s, Connect)) && fresh(clients[|clients| - 1])
    {
      hide Named, Table, Shows;
      var client := new Client(nextId);
      EntryFacts(s);
      NamedAfterAccept(clients, s.viewers.Keys, client);
      assert Step(s, Connect).viewers.Keys == s.viewers.Keys + {client.id};
      PushBack(client, s.viewers);
    }

    lemma EntryFacts(s: State)
      requires Represents(s)
      ensures |clients| > 0
      ensures forall i :: 0 < i < |clients| ==>
                clients[i] != null && (clients[i] == publisher <==> s.publisher == Some(clients[i].id))
    {
    }

    method PushBack(client: Client, ghost viewers: map<Id, Viewer>)
      requires Valid() && Shows(viewers) && client.id == nextId
      modifies this`clients, this`nextId
      ensures clients == old(clients) + [client] && nextId == old(nextId) + 1
      ensures Valid() && Shows(viewers[client.id := client.View()])
    {
      ghost var before := clients;
      clients := clients + [client];
      nextId := nextId + 1;
      assert forall i :: 0 < i < |before| ==> clients[i] == before[i];
    }

    /** handle_fcpublish: the second publisher gets an exception. */
    method FcPublish(client: Client, ghost s: State) returns (ok: bool)
      requires Represents(s) && client in clients
      modifies this`publisher
      ensures Represents(Step(s, Publish(client.id))) && ok == (old(publisher) == null)
      ensures publisher == if ok then client else old(publisher)
    {
      if publisher != null {
        return false;
      }
      publisher := client;
      ok := true;
    }

    /** The table shows `viewers` again after one client, and only it, has changed. */
    lemma OneShown(client: Client, viewers: map<Id, Viewer>)
      requires Table() && client in clients
      requires forall i :: 0 < i < |clients| && clients[i] != client ==>
                 clients[i].id in viewers && viewers[clients[i].id] == clients[i].View()
      ensures Shows(viewers[client.id := client.View()])
    {
      var k :| 0 < k < |clients| && clients[k] == client;
      assert forall i :: 0 < i < |clients| && i != k ==> clients[i].id != client.id;
    }

    lemma ShownView(client: Client, s: State)
      requires Represents(s) && client in clients
      ensures client.id in s.viewers && s.viewers[client.id] == client.View()
    {
    }

    /** start_playback: play, play2 and un-pause. */
    method StartPlayback(client: Client, ghost s: State)
      requires Represents(s) && client in clients
      modifies client
      ensures Represents(Step(s, Play(client.id)))
    {
      hide Named, Step, Viewer.Start;
      ShownView(client, s);
      PublisherShown(s);
      StepPlay(client.id, s);
      Greet(client);
      OneShown(client, s.viewers);
      assert Step(s, Play(client.id)).viewers.Keys == s.viewers.Keys;
    }

    lemma StepPlay(c: Id, s: State)
      requires c in s.viewers
      ensures Step(s, Play(c)) == s.(viewers := s.viewers[c := s.viewers[c].Start(s.publisher.Some?, s.metadata)])
    {
    }

    lemma PublisherIs(client: Client, s: State)
      requires Represents(s) && client in clients
      ensures client == publisher <==> s.publisher == Some(client.id)
    {
      hide Named, Shows;
      var k :| 0 < k < |clients| && clients[k] == client;
      if publisher != null {
        var j :| 0 < j < |clients| && clients[j] == publisher;
      }
    }

    lemma PublisherShown(s: State)
      requires Represents(s)
      ensures (publisher != null) == s.publisher.Some? && s.metadata == metadata
    {
    }

    /** The messages and flags of start_playback. */
    method Greet(client: Client)
      modifies client
      ensures client.View() == old(client.View()).Start(publisher != null, metadata)
    {
      client.sent := client.sent + [PlayReset];
      client.sent := client.sent + [PlayStart];
      client.sent := client.sent + [SampleAccess];
      client.playing := true;
      client.ready := false;
      if publisher != null {
        client.sent := client.sent + [Meta(metadata)];
      }
      assert client.sent == old(client.sent) + Greeting(publisher != null, metadata);
    }

    /** send_reply: only a transaction that is not negative gets one. */
    method SendReply(client: Client, wanted: bool, ghost s: State)
      requires Represents(s) && client in clients
      modifies client
      ensures Represents(if wanted then Step(s, Answer(client.id)) else s)
    {
      hide Named;
      if wanted {
        ShownView(client, s);
        client.sent := client.sent + [Result];
        OneShown(client, s.viewers);
        assert Step(s, Answer(client.id)).viewers.Keys == s.viewers.Keys;
      }
    }

    /** handle_pause, for a transaction that wants a reply or not. */
    method HandlePause(client: Client, paused: bool, wanted: bool, ghost s: State)
      requires Represents(s) && client in clients
      modifies client
      ensures var s1 := Step(s, if paused then Pause(client.id) else Play(client.id));
              Represents(if wanted then Step(s1, Answer(client.id)) else s1)
    {
      hide Named, Step;
      Pausing(client, paused, s);
      SendReply(client, wanted, Step(s, if paused then Pause(client.id) else Play(client.id)));
    }

    /** The two branches of handle_pause. */
    method Pausing(client: Client, paused: bool, ghost s: State)
      requires Represents(s) && client in clients
      modifies client
      ensures Represents(Step(s, if paused then Pause(client.id) else Play(client.id)))
    {
      hide Named;
      if paused {
        ShownView(client, s);
        client.sent := client.sent + [PauseNotify];
        client.playing := false;
        OneShown(client, s.viewers);
        assert Step(s, Pause(client.id)).viewers.Keys == s.viewers.Keys;
      } else {
        StartPlayback(client, s);
      }
    }

    /** handle_setdataframe, with the type string and the metadata that were read. */
    method SetDataFrame(client: Client, kind: string, data: Metadata, ghost s: State) returns (ok: bool)
      requires Represents(s) && client in clients
      modifies this`metadata, clients
      ensures ok == (client == publisher && kind == "onMetaData")
      ensures Represents(if kind == "onMetaData" then Step(s, SetData(client.id, data)) else s)
    {
      hide Named, Table, Shows, Announce;
      PublisherIs(client, s);
      if client != publisher || kind != "onMetaData" {
        return false;
      }
      metadata := data;
      InformAll(data, s.viewers);
      ok := true;
    }

    /** The loop of handle_setdataframe. */
    method InformAll(data: Metadata, ghost viewers: map<Id, Viewer>)
      requires Valid() && Shows(viewers)
      modifies clients
      ensures Shows(Announce(viewers, data))
    {
      var i := 0;
      while i < |clients|
        invariant 0 <= i <= |clients|
        invariant forall j :: 0 < j < i ==> clients[j].View() == viewers[clients[j].id].Inform(data)
        invariant forall j :: 0 < j && i <= j < |clients| ==> clients[j].View() == viewers[clients[j].id]
      {
        if clients[i] != null && clients[i].playing {
          clients[i].sent := clients[i].sent + [Meta(data)];
        }
        i := i + 1;
      }
    }

    /** The audio and video cases of handle_message. */
    method Forwarding(client: Client, m: Media, ghost s: State) returns (ok: bool)
      requires Represents(s) && client in clients
      modifies clients
      ensures Represents(Step(s, Relay(client.id, m))) && ok == (client == publisher)
    {
      hide Named, Table, Shows, Offer;
      PublisherIs(client, s);
      if client != publisher {
        return false;
      }
      ForwardAll(m, s.viewers);
      ok := true;
    }

    /** The two forwarding loops. */
    method ForwardAll(m: Media, ghost viewers: map<Id, Viewer>)
      requires Valid() && Shows(viewers)
      modifies clients
      ensures Shows(Offer(viewers, m))
    {
      hide Viewer.Receive;
      var i := 0;
      while i < |clients|
        invariant 0 <= i <= |clients|
        invariant forall j :: 0 < j < i ==> clients[j].View() == viewers[clients[j].id].Receive(m)
        invariant forall j :: 0 < j && i <= j < |clients| ==> clients[j].View() == viewers[clients[j].id]
      {
        var receiver := clients[i];
        if receiver != null {
          OfferTo(receiver, m);
        }
        i := i + 1;
      }
    }

    /** The body of the two forwarding loops. */
    method OfferTo(receiver: Client, m: Media)
      modifies receiver
      ensures receiver.View() == old(receiver.View()).Receive(m)
    {
      match m {
        case Audio(_) =>
          if receiver.ready {
            receiver.sent := receiver.sent + [Forward(m)];
          }
        case Video(_) =>
          if receiver.playing {
            if m.Key() && !receiver.ready {
              receiver.sent := receiver.sent + [Clear];
              receiver.ready := true;
            }
            if receiver.ready {
              receiver.sent := receiver.sent + [Forward(m)];
            }
          }
      }
    }

    /** close_client, for the client in table entry `n`. */
    method CloseClient(n: nat, ghost s: State)
      requires Represents(s) && 0 < n < |clients|
      modifies this, clients
      ensures Represents(Step(s, Close(old(clients)[n].id)))
    {
      hide Named, Table, Shows;
      EntryFacts(s);
      var client := clients[n];
      NamedAfterErase(clients, s.viewers.Keys, n);
      ghost var rest := s.viewers - {client.id};
      Erase(n, s.viewers, rest);
      if client == publisher {
        publisher := null;
        DropReady(rest);
      }
    }

    lemma AllShown(viewers: map<Id, Viewer>)
      requires Table() && Shows(viewers)
      ensures forall c :: c in clients && c != null ==> c.id in viewers && viewers[c.id] == c.View()
    {
    }

    lemma NonNull()
      requires Table()
      ensures forall i :: 0 < i < |clients| ==> clients[i] != null
    {
    }

    method Erase(n: nat, ghost viewers: map<Id, Viewer>, ghost rest: map<Id, Viewer>)
      requires Valid() && Shows(viewers) && 0 < n < |clients| && rest == viewers - {clients[n].id}
      modifies this`clients
      ensures clients == old(clients[..n] + clients[n + 1..])
      ensures Table() && Shows(rest) && (publisher != old(clients)[n] ==> Valid())
    {
      hide WellFormed;
      ghost var before := clients;
      Erased(clients, n, nextId);
      AllShown(viewers);
      clients := clients[..n] + clients[n + 1..];
      NonNull();
    }

    /** The loop of close_client that makes everybody wait for the next publisher's key frame. */
    method DropReady(ghost rest: map<Id, Viewer>)
      requires Table() && Shows(rest)
      modifies clients
      ensures Shows(Unready(rest))
    {
      var i := 0;
      while i < |clients|
        invariant 0 <= i <= |clients|
        invariant forall j :: 0 < j < i ==> clients[j].View() == rest[clients[j].id].(ready := false)
        invariant forall j :: 0 < j && i <= j < |clients| ==> clients[j].View() == rest[clients[j].id]
      {
        if clients[i] != null {
          clients[i].ready := false;
        }
        i := i + 1;
      }
    }
  }
}
