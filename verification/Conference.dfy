/**
 * The conference forwarder of app/conference/confserver/confmanager.cpp. Both operations hold the
 * mutex from beginning to end, so a run is a sequence of whole arrivals and whole rounds.
 */
module Conference {
  import opened Bytes

  type Packet = seq<byte>

  /** Where an endpoint is written to: the local socket and the remote host. */
  datatype Address = Address(localfd: int, remoteip: string)

  datatype Endpoint = Endpoint(address: Address, queue: seq<Packet>)

  /** Endpoints by their remote port. */
  type Map = map<int, Endpoint>

  /** One datagram sent on: from one endpoint's queue to another endpoint. */
  datatype Write = Write(from: int, to: int, address: Address, packet: Packet)

  datatype Event = Arrive(address: Address, port: int, packet: Packet) | Round

  // ---------------------------------------------------------------- the two operations

  lemma NoMembers(s: set<int>)
    ensures (forall x :: x !in s) ==> s == {}
  {
    if forall x :: x !in s {
      assert s == {};
    }
  }

  lemma {:induction false} LeastExists(s: set<int>)
    requires s != {}
    ensures exists x :: x in s && forall y :: y in s ==> x <= y
    decreases s
  {
    NoMembers(s);
    var x :| x in s;
    if s != {x} {
      var rest := s - {x};
      assert s == rest + {x};
      LeastExists(rest);
      var z :| z in rest && forall y :: y in rest ==> z <= y;
      var least := Min(x, z);
      assert least in s && forall y :: y in s ==> least <= y;
    } else {
      assert forall y :: y in s ==> x <= y;
    }
  }

  /** The ports in ascending order, as the map is walked. */
  function SortedKeys(s: set<int>): (r: seq<int>)
    ensures forall k :: k in r <==> k in s
    ensures Ascending(r)
    decreases s
  {
    if s == {} then []
    else
      LeastExists(s);
      var x :| x in s && forall y :: y in s ==> x <= y;
      LeastFirst(x, SortedKeys(s - {x}));
      [x] + SortedKeys(s - {x})
  }

  lemma LeastFirst(x: int, r: seq<int>)
    ensures forall k :: k in [x] + r <==> k == x || k in r
    ensures Ascending(r) && (forall y :: y in r ==> x < y) ==> Ascending([x] + r)
  {
    if Ascending(r) && forall y :: y in r ==> x < y {
      var t := [x] + r;
      forall a, b | 0 <= a < b < |t|
        ensures t[a] < t[b]
      {
        assert t[b] == r[b - 1] && r[b - 1] in r;
      }
    }
  }

  predicate Ascending(r: seq<int>) {
    forall a, b :: 0 <= a < b < |r| ==> r[a] < r[b]
  }

  /** setpacket */
  function Arrived(m: Map, address: Address, port: int, packet: Packet): Map {
    if port in m then m[port := m[port].(queue := m[port].queue + [packet])]
    else m[port := Endpoint(address, [packet])]
  }

  /** The inner loop: one packet to everyone but its sender. */
  function Fan(m: Map, from: int, packet: Packet, keys: seq<int>): seq<Write>
    requires forall k :: k in keys ==> k in m
    decreases |keys|
  {
    if keys == [] then []
    else
      assert keys[0] in keys;
      (if keys[0] == from then [] else [Write(from, keys[0], m[keys[0]].address, packet)])
      + Fan(m, from, packet, keys[1..])
  }

  /** The turn of one sender. */
  function Serve(m: Map, from: int, keys: seq<int>): (r: (Map, seq<Write>))
    requires from in m && forall k :: k in keys ==> k in m
    ensures r.0.Keys == m.Keys
  {
    if m[from].queue == [] then (m, [])
    else (m[from := m[from].(queue := m[from].queue[1..])], Fan(m, from, m[from].queue[0], keys))
  }

  /** The outer loop over the senders in `todo`. */
  function ServeAll(m: Map, todo: seq<int>, keys: seq<int>): (r: (Map, seq<Write>))
    requires (forall k :: k in todo ==> k in m) && forall k :: k in keys ==> k in m
    ensures r.0.Keys == m.Keys
    decreases |todo|
  {
    if todo == [] then (m, [])
    else
      assert todo[0] in todo;
      var (m1, a) := Serve(m, todo[0], keys);
      var (m2, b) := ServeAll(m1, todo[1..], keys);
      (m2, a + b)
  }

  /** One round of runloop; a lone endpoint is not served. */
  function Served(m: Map): (r: (Map, seq<Write>))
    ensures r.0.Keys == m.Keys
  {
    if |m| <= 1 then (m, []) else ServeAll(m, SortedKeys(m.Keys), SortedKeys(m.Keys))
  }

  // ---------------------------------------------------------------- runs

  datatype State = State(endpoints: Map, sent: seq<Write>)

  function Step(s: State, e: Event): State {
    match e
    case Arrive(address, port, packet) => s.(endpoints := Arrived(s.endpoints, address, port, packet))
    case Round =>
      var (m, writes) := Served(s.endpoints);
      State(m, s.sent + writes)
  }

  /** The state after a history of events, from the start. */
  function Run(events: seq<Event>): State {
    if events == [] then State(map[], []) else Step(Run(Front(events)), Last(events))
  }

  function Front(events: seq<Event>): seq<Event>
    requires events != []
  {
    events[..|events| - 1]
  }

  function Last(events: seq<Event>): Event
    requires events != []
  {
    events[|events| - 1]
  }

  // ------------------------------------------- what should happen, from the history alone

  /** The ports that have sent something. */
  function Ports(events: seq<Event>): set<int> {
    if events == [] then {}
    else Ports(Front(events)) + (if Last(events).Arrive? then {Last(events).port} else {})
  }

  /** The packets of one port, in order of arrival. */
  function Received(events: seq<Event>, i: int): seq<Packet> {
    if events == [] then []
    else Received(Front(events), i)
         + (if Last(events).Arrive? && Last(events).port == i then [Last(events).packet] else [])
  }

  /** How many packets of a port have been forwarded: one a round while two take part. */
  function Gone(events: seq<Event>, i: int): (n: nat)
    ensures n <= |Received(events, i)|
  {
    if events == [] then 0
    else
      var n := Gone(Front(events), i);
      if Last(events).Round? && |Ports(Front(events))| >= 2 && n < |Received(Front(events), i)| then n + 1 else n
  }

  /** When a port sent its first packet, or the whole length if it never did. */
  function Joined(events: seq<Event>, j: int): (n: nat)
    ensures n <= |events|
    ensures j in Ports(events) <==> n < |events|
  {
    if events == [] then 0
    else if j in Ports(Front(events)) then Joined(Front(events), j)
    else if j in Ports(events) then |events| - 1
    else |events|
  }

  /** What one endpoint was sent of another's packets. */
  function Got(sent: seq<Write>, i: int, j: int): seq<Packet> {
    if sent == [] then []
    else (if sent[0].from == i && sent[0].to == j then [sent[0].packet] else []) + Got(sent[1..], i, j)
  }

  lemma {:induction false} GotConcat(a: seq<Write>, b: seq<Write>, i: int, j: int)
    ensures Got(a + b, i, j) == Got(a, i, j) + Got(b, i, j)
    decreases |a|
  {
    if a == [] {
      assert a + b == b;
    } else {
      assert (a + b)[1..] == a[1..] + b;
      GotConcat(a[1..], b, i, j);
    }
  }

  predicate Distinct(keys: seq<int>) {
    forall a, b :: 0 <= a < b < |keys| ==> keys[a] != keys[b]
  }

  lemma DistinctTail(keys: seq<int>)
    requires keys != [] && Distinct(keys)
    ensures Distinct(keys[1..]) && keys[0] !in keys[1..]
    ensures forall k :: k in keys <==> k == keys[0] || k in keys[1..]
  {
    assert keys == [keys[0]] + keys[1..];
  }

  lemma {:induction false} FanGot(m: Map, from: int, packet: Packet, keys: seq<int>, i: int, j: int)
    requires Distinct(keys) && forall k :: k in keys ==> k in m
    ensures Got(Fan(m, from, packet, keys), i, j) == if from == i && i != j && j in keys then [packet] else []
    decreases |keys|
  {
    hide Distinct;
    if keys != [] {
      DistinctTail(keys);
      FanGot(m, from, packet, keys[1..], i, j);
      var head := if keys[0] == from then [] else [Write(from, keys[0], m[keys[0]].address, packet)];
      GotConcat(head, Fan(m, from, packet, keys[1..]), i, j);
      assert head != [] ==> head[1..] == [];
    }
  }

  /** The queue of a port; none for a port that has not joined. */
  function Queue(m: Map, i: int): seq<Packet> { if i in m then m[i].queue else [] }

  function Popped(q: seq<Packet>): seq<Packet> { if q == [] then [] else q[1..] }

  /** In a round every sender loses its front packet, and everyone else gets it once. */
  lemma {:induction false} ServeAllGot(m: Map, todo: seq<int>, keys: seq<int>, i: int, j: int)
    requires Distinct(todo) && Distinct(keys)
    requires (forall k :: k in todo ==> k in m) && forall k :: k in keys ==> k in m
    ensures var (m1, writes) := ServeAll(m, todo, keys);
            && Queue(m1, i) == (if i in todo then Popped(Queue(m, i)) else Queue(m, i))
            && Got(writes, i, j) ==
               if i in todo && Queue(m, i) != [] && i != j && j in keys then [Queue(m, i)[0]] else []
    decreases |todo|
  {
    hide Distinct, Serve, Queue, Popped;
    if todo != [] {
      DistinctTail(todo);
      var (m1, a) := Serve(m, todo[0], keys);
      ServeGot(m, todo[0], keys, i, j);
      ServeAllGot(m1, todo[1..], keys, i, j);
      GotConcat(a, ServeAll(m1, todo[1..], keys).1, i, j);
    }
  }

  /** The turn of one sender. */
  lemma ServeGot(m: Map, from: int, keys: seq<int>, i: int, j: int)
    requires from in m && Distinct(keys) && forall k :: k in keys ==> k in m
    ensures var (m1, writes) := Serve(m, from, keys);
            && Queue(m1, i) == (if i == from then Popped(Queue(m, i)) else Queue(m, i))
            && Got(writes, i, j) ==
               if i == from && Queue(m, i) != [] && i != j && j in keys then [Queue(m, i)[0]] else []
  {
    hide Distinct, Fan;
    if Queue(m, from) != [] {
      FanGot(m, from, m[from].queue[0], keys, i, j);
    }
  }

  lemma ServedGot(m: Map, i: int, j: int)
    ensures var (m1, writes) := Served(m);
            && Queue(m1, i) == (if |m| >= 2 then Popped(Queue(m, i)) else Queue(m, i))
            && Got(writes, i, j) == if |m| >= 2 && Queue(m, i) != [] && i != j && j in m then [Queue(m, i)[0]] else []
  {
    hide ServeAll;
    if |m| >= 2 {
      ServeAllGot(m, SortedKeys(m.Keys), SortedKeys(m.Keys), i, j);
    }
  }

  // ---------------------------------------------------------------- main results

  /** One more event of the history, and of the run. */
  lemma {:induction false} HistoryStep(events: seq<Event>, i: int)
    requires events != []
    ensures var before, e := Front(events), Last(events);
            && Run(events) == Step(Run(before), e)
            && Ports(events) == (if e.Arrive? then Ports(before) + {e.port} else Ports(before))
            && Received(events, i) == Received(before, i) + (if e.Arrive? && e.port == i then [e.packet] else [])
            && (e.Arrive? || |Ports(before)| < 2 ==> Gone(events, i) == Gone(before, i))
            && (e.Round? && |Ports(before)| >= 2 ==> Gone(events, i) == Min(Gone(before, i) + 1, |Received(before, i)|))
  {
    hide Step;
  }

  /** The state is what the history says: who takes part, and what each queue holds. */
  lemma {:induction false} QueueIs(events: seq<Event>, i: int)
    ensures var m := Run(events).endpoints;
            && Queue(m, i) == Received(events, i)[Gone(events, i)..]
            && m.Keys == Ports(events) && |m| == |Ports(events)|
    decreases |events|
  {
    hide Run, Ports, Received, Gone, Served;
    if events == [] {
      NoHistory(i);
    } else {
      HistoryStep(events, i);
      var before := Front(events);
      QueueIs(before, i);
      var m := Run(before).endpoints;
      if Last(events).Round? {
        ServedGot(m, i, i);
      }
      assert |Run(events).endpoints| == |Run(events).endpoints.Keys|;
    }
  }

  lemma NoHistory(i: int)
    ensures Run([]) == State(map[], []) && Ports([]) == {} && Received([], i) == [] && Gone([], i) == 0
  {
  }

  /** What has been forwarded at an earlier moment. */
  lemma {:induction false} GoneGrows(events: seq<Event>, n: nat, i: int)
    requires n <= |events|
    ensures Gone(events[..n], i) <= Gone(events, i)
    decreases |events|
  {
    if n == |events| {
      assert events[..n] == events;
    } else {
      GoneGrows(Front(events), n, i);
      assert Front(events)[..n] == events[..n];
    }
  }

  /** What endpoint `j` should have got of the packets of `i`. */
  function Owed(events: seq<Event>, i: int, j: int): seq<Packet> {
    GoneGrows(events, Joined(events, j), i);
    if i == j then [] else Received(events, i)[Gone(events[..Joined(events, j)], i)..Gone(events, i)]
  }

  /**
   * In every interleaving of arrivals and rounds, endpoint `j` is sent exactly the packets of `i`
   * that were forwarded since `j` joined: in order, without gap or repetition, and none of its own.
   */
  lemma {:induction false} Forwarding(events: seq<Event>, i: int, j: int)
    ensures Got(Run(events).sent, i, j) == Owed(events, i, j)
    decreases |events|
  {
    hide Served, Got, Run, Received, Ports, Gone, Owed;
    if events == [] {
      NoHistory(i);
      GotNothing(i, j);
    } else {
      HistoryStep(events, i);
      var before := Front(events);
      var s := Run(before);
      Forwarding(before, i, j);
      QueueIs(before, i);
      OwedStep(events, i, j);
      if Last(events).Round? {
        ServedGot(s.endpoints, i, j);
        GotConcat(s.sent, Served(s.endpoints).1, i, j);
      }
    }
  }

  lemma GotNothing(i: int, j: int)
    ensures Got([], i, j) == [] && Owed([], i, j) == []
  {
    NoHistory(i);
  }

  /** One more event adds the packet that leaves, if `j` is there to get it. */
  lemma OwedStep(events: seq<Event>, i: int, j: int)
    requires events != []
    ensures var before := Front(events);
            var n := Gone(before, i);
            Owed(events, i, j) == Owed(before, i, j) +
              if Last(events).Round? && |Ports(before)| >= 2 && n < |Received(before, i)|
                 && i != j && j in Ports(before)
              then [Received(before, i)[n]] else []
  {
    hide Run, Ports, Received, Gone, Joined;
    var before := Front(events);
    HistoryStep(events, i);
    JoinedStep(events, j);
    GoneGrows(before, Joined(before, j), i);
    GoneGrows(events, Joined(events, j), i);
  }

  /** Once joined, the moment of joining stays; until then, everything was before it. */
  lemma JoinedStep(events: seq<Event>, j: int)
    requires events != []
    ensures var before := Front(events);
            && (j in Ports(before) ==> events[..Joined(events, j)] == before[..Joined(before, j)])
            && (j !in Ports(before) ==> before[..Joined(before, j)] == before)
            && (j !in Ports(before) ==> events[..Joined(events, j)] == if j in Ports(events) then before else events)
  {
    hide Ports;
  }

  /** Nothing leaves before a second endpoint is there. */
  lemma {:induction false} NoneGoneAlone(events: seq<Event>, i: int)
    requires |Ports(events)| <= 1
    ensures Gone(events, i) == 0
    decreases |events|
  {
    if events != [] {
      var before := Front(events);
      PortsGrow(events);
      NoneGoneAlone(before, i);
    }
  }

  lemma PortsGrow(events: seq<Event>)
    requires events != []
    ensures |Ports(Front(events))| <= |Ports(events)|
  {
    var before := Ports(Front(events));
    if Last(events).Arrive? && Last(events).port !in before {
      assert Ports(events) == before + {Last(events).port};
    } else {
      assert Ports(events) == before;
    }
  }

  /** The first two endpoints miss nothing that anybody's queue gives up. */
  lemma FirstTwoMissNothing(events: seq<Event>, i: int, j: int)
    requires i != j && |Ports(events[..Joined(events, j)])| <= 1
    ensures Got(Run(events).sent, i, j) == Received(events, i)[..Gone(events, i)]
  {
    hide Run, Received, Gone, Ports, Got, Joined;
    Forwarding(events, i, j);
    NoneGoneAlone(events[..Joined(events, j)], i);
  }

  /** The endpoint that was the first to join besides `i`, if there is one. */
  lemma {:induction false} FirstOther(events: seq<Event>, i: int) returns (j: int)
    requires !(Ports(events) <= {i})
    ensures j != i && Ports(events[..Joined(events, j)]) <= {i}
    decreases |events|
  {
    hide Joined;
    var before := Front(events);
    if Ports(before) <= {i} {
      j := Last(events).port;
      JoinedStep(events, j);
    } else {
      j := FirstOther(before, i);
      JoinedStep(events, j);
    }
  }

  lemma AtMostOne(s: set<int>, i: int)
    requires s <= {i}
    ensures |s| <= 1
  {
    if i in s {
      assert s == {i};
    } else {
      assert s == {};
    }
  }

  /**
   * Nothing is lost: at every moment what a port sent is what has been written of it to some other
   * endpoint, in order, followed by what its queue holds.
   */
  lemma Conservation(events: seq<Event>, i: int) returns (j: int)
    ensures j != i
    ensures Received(events, i) == Got(Run(events).sent, i, j) + Queue(Run(events).endpoints, i)
  {
    hide Run, Received, Gone, Queue, Ports, Got, Joined;
    QueueIs(events, i);
    if Ports(events) <= {i} {
      j := i + 1;
      NeverJoined(events, j);
    } else {
      j := FirstOther(events, i);
    }
    AtMostOne(Ports(events[..Joined(events, j)]), i);
    FirstTwoMissNothing(events, i, j);
  }

  lemma NeverJoined(events: seq<Event>, j: int)
    requires j !in Ports(events)
    ensures events[..Joined(events, j)] == events
  {
  }

  function Rounds(n: nat): seq<Event> { if n == 0 then [] else Rounds(n - 1) + [Round] }

  /** The history `all` is `events` followed by `n` rounds with two endpoints present. */
  predicate Drained(events: seq<Event>, all: seq<Event>, n: nat, i: int, j: int) {
    && Ports(all) == Ports(events) && Received(all, i) == Received(events, i)
    && all[..Joined(all, j)] == events[..Joined(events, j)]
    && Gone(all, i) == Min(Gone(events, i) + n, |Received(events, i)|)
  }

  lemma OneRound(events: seq<Event>, i: int, j: int)
    requires |Ports(events)| >= 2 && j in Ports(events)
    ensures Drained(events, events + [Round], 1, i, j)
  {
    hide Ports, Received, Gone, Joined;
    RoundHistory(events, i);
    JoinedStep(events + [Round], j);
    assert Front(events + [Round]) == events;
  }

  lemma {:induction false} RoundHistory(events: seq<Event>, i: int)
    ensures var all := events + [Round];
            && Ports(all) == Ports(events) && Received(all, i) == Received(events, i)
            && (|Ports(events)| >= 2 ==> Gone(all, i) == Min(Gone(events, i) + 1, |Received(events, i)|))
  {
    var all := events + [Round];
    assert Front(all) == events && Last(all) == Round;
  }

  lemma DrainedMore(a: seq<Event>, b: seq<Event>, c: seq<Event>, n: nat, i: int, j: int)
    requires Drained(a, b, n, i, j) && Drained(b, c, 1, i, j)
    ensures Drained(a, c, n + 1, i, j)
  {
    hide Ports, Received, Gone, Joined;
  }

  /** With two endpoints present, `n` rounds forward `n` packets of every queue that has them. */
  lemma {:induction false} RoundsDrain(events: seq<Event>, n: nat, i: int, j: int)
    requires |Ports(events)| >= 2 && j in Ports(events)
    ensures Drained(events, events + Rounds(n), n, i, j)
    decreases n
  {
    hide Drained, Ports;
    if n == 0 {
      assert events + Rounds(0) == events;
      NothingDrained(events, i, j);
    } else {
      RoundsDrain(events, n - 1, i, j);
      var before := events + Rounds(n - 1);
      DrainedKeepsPorts(events, before, n - 1, i, j);
      OneRound(before, i, j);
      assert events + Rounds(n) == before + [Round];
      DrainedMore(events, before, before + [Round], n - 1, i, j);
    }
  }

  lemma NothingDrained(events: seq<Event>, i: int, j: int)
    ensures Drained(events, events, 0, i, j)
  {
    hide Ports, Received, Joined;
  }

  lemma DrainedKeepsPorts(events: seq<Event>, all: seq<Event>, n: nat, i: int, j: int)
    requires Drained(events, all, n, i, j)
    ensures Ports(all) == Ports(events)
  {
  }

  /** Once arrivals cease, enough rounds deliver every packet that was still there when `j` joined. */
  lemma AllDelivered(events: seq<Event>, n: nat, i: int, j: int)
    requires |Ports(events)| >= 2 && n >= |Received(events, i)| && i != j && j in Ports(events)
    ensures (GoneGrows(events, Joined(events, j), i);
             Got(Run(events + Rounds(n)).sent, i, j) == Received(events, i)[Gone(events[..Joined(events, j)], i)..])
  {
    hide Run, Received, Gone, Ports, Got, Joined;
    GoneGrows(events, Joined(events, j), i);
    RoundsDrain(events, n, i, j);
    Forwarding(events + Rounds(n), i, j);
  }

  // ---------------------------------------------------------------- addresses

  /** The address of the first packet from a port. */
  function FirstAddress(events: seq<Event>, j: int): Address
    requires j in Ports(events)
  {
    if j in Ports(Front(events)) then FirstAddress(Front(events), j) else Last(events).address
  }

  /** An endpoint keeps the address of its first packet. */
  lemma {:induction false} AddressIsFirst(events: seq<Event>, j: int)
    requires j in Ports(events)
    ensures j in Run(events).endpoints && Run(events).endpoints[j].address == FirstAddress(events, j)
    decreases |events|
  {
    hide Served;
    var before := Front(events);
    QueueIs(before, j);
    if j in Ports(before) {
      AddressIsFirst(before, j);
    }
    if Last(events).Round? {
      ServedKeepsAddress(Run(before).endpoints, j);
    }
  }

  lemma {:induction false} ServeAllKeepsAddress(m: Map, todo: seq<int>, keys: seq<int>, j: int)
    requires j in m && (forall k :: k in todo ==> k in m) && forall k :: k in keys ==> k in m
    ensures ServeAll(m, todo, keys).0[j].address == m[j].address
    decreases |todo|
  {
    hide Fan;
    if todo != [] {
      assert todo[0] in todo;
      ServeAllKeepsAddress(Serve(m, todo[0], keys).0, todo[1..], keys, j);
    }
  }

  lemma ServedKeepsAddress(m: Map, j: int)
    requires j in m
    ensures Served(m).0[j].address == m[j].address
  {
    hide ServeAll;
    if |m| >= 2 {
      ServeAllKeepsAddress(m, SortedKeys(m.Keys), SortedKeys(m.Keys), j);
    }
  }

  /** It is the address of the packet with which the port joined. */
  lemma {:induction false} FirstIsJoined(events: seq<Event>, j: int)
    requires j in Ports(events)
    ensures var n := Joined(events, j);
            events[n].Arrive? && events[n].port == j && events[n].address == FirstAddress(events, j)
    decreases |events|
  {
    if j in Ports(Front(events)) {
      FirstIsJoined(Front(events), j);
    }
  }

  /** The datagrams go to other endpoints, each at the address kept for it. */
  predicate Addressed(m: Map, writes: seq<Write>) {
    forall w <- writes :: w.from in m && w.to in m && w.from != w.to && w.address == m[w.to].address
  }

  lemma {:induction false} FanAddressed(m: Map, from: int, packet: Packet, keys: seq<int>)
    requires from in m && forall k :: k in keys ==> k in m
    ensures Addressed(m, Fan(m, from, packet, keys))
    decreases |keys|
  {
    if keys != [] {
      assert keys[0] in keys && forall k :: k in keys[1..] ==> k in keys;
      FanAddressed(m, from, packet, keys[1..]);
    }
  }

  predicate SameAddresses(m: Map, m1: Map) {
    m.Keys == m1.Keys && forall k :: k in m ==> m1[k].address == m[k].address
  }

  lemma {:induction false} ServeAllAddressed(m: Map, todo: seq<int>, keys: seq<int>)
    requires (forall k :: k in todo ==> k in m) && forall k :: k in keys ==> k in m
    ensures Addressed(m, ServeAll(m, todo, keys).1)
    decreases |todo|
  {
    hide Fan, Addressed;
    if todo == [] {
      NoneAddressed(m);
    } else {
      assert todo[0] in todo && forall k :: k in todo[1..] ==> k in todo;
      var (m1, a) := Serve(m, todo[0], keys);
      ServeAllAddressed(m1, todo[1..], keys);
      if m[todo[0]].queue == [] {
        NoneAddressed(m);
      } else {
        FanAddressed(m, todo[0], m[todo[0]].queue[0], keys);
      }
      AddressedConcat(m, m1, a, ServeAll(m1, todo[1..], keys).1);
    }
  }

  lemma NoneAddressed(m: Map)
    ensures Addressed(m, [])
  {
  }

  lemma AddressedConcat(m: Map, m1: Map, a: seq<Write>, b: seq<Write>)
    requires SameAddresses(m, m1) && Addressed(m, a) && Addressed(m1, b)
    ensures Addressed(m, a + b)
  {
  }

  lemma ServedAddressed(m: Map)
    ensures Addressed(m, Served(m).1)
  {
    hide ServeAll, Addressed;
    if |m| >= 2 {
      ServeAllAddressed(m, SortedKeys(m.Keys), SortedKeys(m.Keys));
    } else {
      NoneAddressed(m);
    }
  }

  /** The datagrams of a history went to other endpoints that had joined, at the address of their first packet. */
  predicate ToFirst(events: seq<Event>, writes: seq<Write>) {
    forall w <- writes ::
      w.from in Ports(events) && w.to in Ports(events) && w.from != w.to && w.address == FirstAddress(events, w.to)
  }

  /** Every datagram ever written goes to the host that was the first to use the receiving port. */
  lemma {:induction false} WrittenToFirst(events: seq<Event>)
    ensures ToFirst(events, Run(events).sent)
    decreases |events|
  {
    hide Served, Ports, FirstAddress, ToFirst;
    if events == [] {
      NoneToFirst(events);
    } else {
      var before := Front(events);
      var s := Run(before);
      WrittenToFirst(before);
      ToFirstLater(events, s.sent);
      if Last(events).Round? {
        ServedAddressed(s.endpoints);
        RoundToFirst(before, Served(s.endpoints).1);
        ToFirstLater(events, Served(s.endpoints).1);
        ToFirstConcat(events, s.sent, Served(s.endpoints).1);
      }
    }
  }

  lemma NoneToFirst(events: seq<Event>)
    ensures ToFirst(events, [])
  {
  }

  lemma ToFirstLater(events: seq<Event>, writes: seq<Write>)
    requires events != [] && ToFirst(Front(events), writes)
    ensures ToFirst(events, writes)
  {
  }

  lemma RoundToFirst(events: seq<Event>, writes: seq<Write>)
    requires Addressed(Run(events).endpoints, writes)
    ensures ToFirst(events, writes)
  {
    hide Run, FirstAddress, Ports;
    forall w | w in writes
      ensures w.from in Ports(events) && w.to in Ports(events) && w.address == FirstAddress(events, w.to)
    {
      QueueIs(events, w.to);
      AddressIsFirst(events, w.to);
    }
  }

  lemma ToFirstConcat(events: seq<Event>, a: seq<Write>, b: seq<Write>)
    requires ToFirst(events, a) && ToFirst(events, b)
    ensures ToFirst(events, a + b)
  {
    hide Ports, FirstAddress;
  }

  lemma {:induction false} FirstStays(events: seq<Event>, more: seq<Event>, j: int)
    requires j in Ports(events)
    ensures j in Ports(events + more) && FirstAddress(events + more, j) == FirstAddress(events, j)
    decreases |more|
  {
    if more == [] {
      assert events + more == events;
    } else {
      FirstStays(events, Front(more), j);
      assert Front(events + more) == events + Front(more);
    }
  }

  /** A second host on a port that is in use is never written to, whatever happens later. */
  lemma SecondHostUnheard(first: Address, second: Address, port: int, p: Packet, q: Packet, more: seq<Event>)
    requires first != second
    ensures forall w <- Run([Arrive(first, port, p)] + ([Arrive(second, port, q)] + more)).sent ::
              w.to == port ==> w.address == first
  {
    hide Run;
    var events := [Arrive(first, port, p)];
    assert Front(events) == [] && Last(events) == Arrive(first, port, p);
    FirstStays(events, [Arrive(second, port, q)] + more, port);
    WrittenToFirst(events + ([Arrive(second, port, q)] + more));
  }

  /**
   * Endpoints are told apart by port alone: a host is written to at a port exactly if it was the
   * first to use that port and anything is written to the port at all.
   */
  lemma ReachedIffFirst(events: seq<Event>, address: Address, port: int)
    ensures (exists w :: w in Run(events).sent && w.to == port && w.address == address) <==>
            && (exists w :: w in Run(events).sent && w.to == port)
            && port in Ports(events) && FirstAddress(events, port) == address
  {
    hide Run, Ports, FirstAddress;
    WrittenToFirst(events);
  }

  // ---------------------------------------------------------------- the order of a round

  /** In front: a smaller sender, or the same sender and a smaller receiver. */
  predicate InFront(v: Write, w: Write) { v.from < w.from || (v.from == w.from && v.to < w.to) }

  predicate InOrder(writes: seq<Write>) {
    forall a, b :: 0 <= a < b < |writes| ==> InFront(writes[a], writes[b])
  }

  lemma InOrderConcat(u: seq<Write>, v: seq<Write>)
    requires InOrder(u) && InOrder(v) && forall x <- u, y <- v :: InFront(x, y)
    ensures InOrder(u + v)
  {
    var t := u + v;
    forall a, b | 0 <= a < b < |t|
      ensures InFront(t[a], t[b])
    {
      if a < |u| <= b {
        assert t[a] in u && t[b] in v;
      }
    }
  }

  lemma AscendingTail(keys: seq<int>)
    requires keys != [] && Ascending(keys)
    ensures Ascending(keys[1..]) && forall k :: k in keys[1..] ==> keys[0] < k
  {
  }

  lemma {:induction false} FanInOrder(m: Map, from: int, packet: Packet, keys: seq<int>)
    requires Ascending(keys) && forall k :: k in keys ==> k in m
    ensures var writes := Fan(m, from, packet, keys);
            InOrder(writes) && forall w <- writes :: w.from == from && w.to in keys
    decreases |keys|
  {
    hide Ascending;
    if keys != [] {
      assert keys[0] in keys && forall k :: k in keys[1..] ==> k in keys;
      AscendingTail(keys);
      FanInOrder(m, from, packet, keys[1..]);
      var head := if keys[0] == from then [] else [Write(from, keys[0], m[keys[0]].address, packet)];
      InOrderConcat(head, Fan(m, from, packet, keys[1..]));
    }
  }

  lemma {:induction false} ServeAllInOrder(m: Map, todo: seq<int>, keys: seq<int>)
    requires Ascending(todo) && Ascending(keys)
    requires (forall k :: k in todo ==> k in m) && forall k :: k in keys ==> k in m
    ensures var writes := ServeAll(m, todo, keys).1;
            InOrder(writes) && forall w <- writes :: w.from in todo
    decreases |todo|
  {
    hide Ascending, Fan, InOrder;
    if todo == [] {
      NoneInOrder();
    } else {
      assert todo[0] in todo && forall k :: k in todo[1..] ==> k in todo;
      AscendingTail(todo);
      var (m1, a) := Serve(m, todo[0], keys);
      ServeAllInOrder(m1, todo[1..], keys);
      if m[todo[0]].queue == [] {
        NoneInOrder();
      } else {
        FanInOrder(m, todo[0], m[todo[0]].queue[0], keys);
      }
      InOrderConcat(a, ServeAll(m1, todo[1..], keys).1);
    }
  }

  lemma NoneInOrder()
    ensures InOrder([])
  {
  }

  /** A round goes through the senders by port, and for each of them through the receivers by port. */
  lemma RoundInOrder(m: Map)
    ensures InOrder(Served(m).1)
  {
    hide ServeAll, InOrder;
    if |m| >= 2 {
      ServeAllInOrder(m, SortedKeys(m.Keys), SortedKeys(m.Keys));
    } else {
      NoneInOrder();
    }
  }

  // ---------------------------------------------------------------- the object

  class ConfManager {
    var confmap: Map
    /** The datagrams written so far. */
    var sent: seq<Write>

    constructor ()
      ensures Now() == Run([])
    {
      confmap, sent := map[], [];
    }

    ghost function Now(): State
      reads this
    {
      State(confmap, sent)
    }

    method SetPacket(localfd: int, data: Packet, remoteip: string, remoteport: int)
      modifies this`confmap
      ensures Now() == Step(old(Now()), Arrive(Address(localfd, remoteip), remoteport, data))
    {
      if remoteport !in confmap {
        var info := Endpoint(Address(localfd, remoteip), []);
        info := info.(queue := info.queue + [data]);
        assert info.queue == [data];
        confmap := confmap[remoteport := info];
      } else {
        var info := confmap[remoteport];
        confmap := confmap[remoteport := info.(queue := info.queue + [data])];
      }
    }

    /** The inner loop of a round. */
    method SendToOthers(from: int, packet: Packet, keys: seq<int>)
      requires forall k :: k in keys ==> k in confmap
      modifies this`sent
      ensures sent == old(sent) + Fan(confmap, from, packet, keys)
    {
      hide Fan;
      var at := 0;
      assert keys[0..] == keys;
      while at < |keys|
        invariant at <= |keys|
        invariant sent + Fan(confmap, from, packet, keys[at..]) == old(sent) + Fan(confmap, from, packet, keys)
      {
        var to := keys[at];
        FanStep(confmap, from, packet, keys, at, sent);
        if to != from {
          sent := sent + [Write(from, to, confmap[to].address, packet)];
        }
        at := at + 1;
      }
      FanNone(confmap, from, packet, keys);
    }

    /** The body of the outer loop. */
    method ServeOne(from: int, keys: seq<int>)
      requires from in confmap && forall k :: k in keys ==> k in confmap
      modifies this
      ensures var (m, writes) := Serve(old(confmap), from, keys);
              confmap == m && sent == old(sent) + writes
    {
      hide Fan;
      assert sent + [] == sent;
      var info := confmap[from];
      if info.queue == [] {
        return;
      }
      SendToOthers(from, info.queue[0], keys);
      confmap := confmap[from := info.(queue := info.queue[1..])];
    }

    /** The outer loop of a round. */
    method ServeEach(keys: seq<int>)
      requires forall k :: k in keys ==> k in confmap
      modifies this
      ensures var (m, writes) := ServeAll(old(confmap), keys, keys);
              confmap == m && sent == old(sent) + writes
    {
      hide ServeAll, Serve;
      ghost var goal := ServeAll(confmap, keys, keys);
      var at := 0;
      assert keys[0..] == keys;
      while at < |keys|
        invariant at <= |keys| && forall k :: k in keys ==> k in confmap
        invariant ServeAll(confmap, keys[at..], keys).0 == goal.0
        invariant sent + ServeAll(confmap, keys[at..], keys).1 == old(sent) + goal.1
      {
        ServeStep(confmap, keys, at, sent);
        ServeOne(keys[at], keys);
        at := at + 1;
      }
      ServeNone(confmap, keys, sent);
    }

    /** One round of the loop in runloop. */
    method DoRound()
      modifies this
      ensures Now() == Step(old(Now()), Round)
    {
      hide ServeAll, SortedKeys;
      if |confmap| <= 1 {
        assert sent + [] == sent;
        return;
      }
      ServeEach(SortedKeys(confmap.Keys));
    }
  }

  lemma FanStep(m: Map, from: int, packet: Packet, keys: seq<int>, at: nat, sent: seq<Write>)
    requires at < |keys| && forall k :: k in keys ==> k in m
    ensures keys[at] in m
    ensures sent + Fan(m, from, packet, keys[at..]) ==
            (if keys[at] == from then sent else sent + [Write(from, keys[at], m[keys[at]].address, packet)])
            + Fan(m, from, packet, keys[at + 1..])
  {
    var rest := keys[at..];
    assert rest[0] == keys[at] && rest[1..] == keys[at + 1..];
    var head := if rest[0] == from then [] else [Write(from, rest[0], m[rest[0]].address, packet)];
    assert sent + [] == sent;
    assert sent + (head + Fan(m, from, packet, rest[1..])) == sent + head + Fan(m, from, packet, rest[1..]);
  }

  lemma FanNone(m: Map, from: int, packet: Packet, keys: seq<int>)
    requires forall k :: k in keys ==> k in m
    ensures Fan(m, from, packet, keys[|keys|..]) == []
  {
  }

  lemma ServeStep(m: Map, keys: seq<int>, at: nat, sent: seq<Write>)
    requires at < |keys| && forall k :: k in keys ==> k in m
    ensures keys[at] in m
    ensures var (m1, a) := Serve(m, keys[at], keys);
            var (m2, writes) := ServeAll(m1, keys[at + 1..], keys);
            && ServeAll(m, keys[at..], keys).0 == m2
            && sent + ServeAll(m, keys[at..], keys).1 == sent + a + writes
  {
    hide Serve;
    var rest := keys[at..];
    assert rest[0] == keys[at] && rest[1..] == keys[at + 1..];
    var (m1, a) := Serve(m, rest[0], keys);
    var writes := ServeAll(m1, rest[1..], keys).1;
    assert sent + (a + writes) == sent + a + writes;
  }

  lemma ServeNone(m: Map, keys: seq<int>, sent: seq<Write>)
    requires forall k :: k in keys ==> k in m
    ensures ServeAll(m, keys[|keys|..], keys).0 == m && sent + ServeAll(m, keys[|keys|..], keys).1 == sent
  {
  }
}
