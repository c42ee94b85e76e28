// Connections and the endpoint that feeds them: the receive queue with its sticky close, the
// connect future, and the packets parked for a connection that does not exist yet.
module Endpoints {
  import opened Basics

  const MAX_PENDING_PACKETS := 256
  const NO_ERROR := 0

  datatype Item = Packet(data: bytes) | Sentinel

  // The connect future; a connect timeout cancels it.
  datatype Future = Pending | Resolved | Failed(error: int) | Cancelled

  datatype Mark = Opened | Closed(error: int) | Expired

  // What recv() did.
  datatype Outcome = Got(data: bytes) | Raised(error: int)

  // `enqueued`, `outcomes`, `marks` and `settled` record the packets enqueued, what each recv()
  // did, the marks in order, and every value the future was given.
  datatype Conn = Conn(
    queue: seq<Item>, connected: Future, error: Option<int>,
    enqueued: seq<bytes>, outcomes: seq<Outcome>, marks: seq<Mark>, settled: seq<Future>)

  const NEW_CONN := Conn([], Pending, None, [], [], [], [])

  function Enqueue(c: Conn, data: bytes): Conn {
    c.(queue := c.queue + [Packet(data)], enqueued := c.enqueued + [data])
  }

  function EnqueueAll(c: Conn, packets: seq<bytes>): Conn {
    if packets == [] then c else Enqueue(EnqueueAll(c, packets[..|packets| - 1]), packets[|packets| - 1])
  }

  function Settle(c: Conn, f: Future): Conn {
    if c.connected.Pending? then c.(connected := f, settled := c.settled + [f]) else c
  }

  function MarkConnected(c: Conn): Conn { Settle(c, Resolved).(marks := c.marks + [Opened]) }

  function MarkExpired(c: Conn): Conn {
    if c.connected.Pending? then Settle(c, Cancelled).(marks := c.marks + [Expired]) else c
  }

  function MarkClosed(c: Conn, error: int): Conn {
    Settle(c, Failed(error)).(error := Some(error), queue := c.queue + [Sentinel], marks := c.marks + [Closed(error)])
  }

  function CloseError(c: Conn): int { if c.error.Some? then c.error.value else NO_ERROR }

  // recv() waits on an empty queue; it takes the sentinel and puts it back.
  function Recv(c: Conn): Conn {
    if c.queue == [] then c
    else
      match c.queue[0]
      case Packet(data) => c.(queue := c.queue[1..], outcomes := c.outcomes + [Got(data)])
      case Sentinel => c.(queue := c.queue[1..] + [Sentinel], outcomes := c.outcomes + [Raised(CloseError(c))])
  }

  // ---- the endpoint ----

  // `all` holds every connection in creation order, `conns` the open ones by connection id;
  // `handled` records the connections a server's accept loop has started a handler for.
  datatype Endpoint = Endpoint(
    conns: map<nat, nat>, parked: map<nat, seq<bytes>>, incoming: seq<nat>, all: seq<Conn>, handled: seq<nat>)

  const NEW_ENDPOINT := Endpoint(map[], map[], [], [], [])

  datatype Event =
    | Register(id: nat)                  // connect(), once the session exists
    | SessionOpen(id: nat)
    | SessionClose(id: nat, error: int)
    | PacketIn(id: nat, data: bytes)
    | Receive(who: nat)                  // recv() by the application
    | Expire(who: nat)                   // the connect timeout
    | Accept                             // a turn of the accept loop, which waits on an empty queue

  function ParkedFor(e: Endpoint, id: nat): seq<bytes> { if id in e.parked then e.parked[id] else [] }

  function Registered(e: Endpoint, id: nat): Endpoint {
    e.(conns := e.conns[id := |e.all|], parked := e.parked - {id},
       all := e.all + [EnqueueAll(NEW_CONN, ParkedFor(e, id))])
  }

  function Opening(e: Endpoint, id: nat): Endpoint {
    if id in e.conns then e else Registered(e, id).(incoming := e.incoming + [|e.all|])
  }

  function ParkPacket(e: Endpoint, id: nat, data: bytes): Endpoint {
    var buffer := ParkedFor(e, id);
    e.(parked := e.parked[id := if |buffer| < MAX_PENDING_PACKETS then buffer + [data] else buffer])
  }

  function With(e: Endpoint, who: nat, c: Conn): Endpoint
    requires who < |e.all|
  {
    e.(all := e.all[who := c])
  }

  function AcceptNext(e: Endpoint): Endpoint {
    if e.incoming == [] then e
    else e.(incoming := e.incoming[1..], handled := e.handled + [e.incoming[0]])
  }

  predicate Mapped(e: Endpoint) { forall id :: id in e.conns ==> e.conns[id] < |e.all| }

  function Step(e: Endpoint, event: Event): Endpoint
    requires Mapped(e)
  {
    match event
    case Register(id) => Registered(e, id)
    case SessionOpen(id) =>
      var e1 := Opening(e, id);
      With(e1, e1.conns[id], MarkConnected(e1.all[e1.conns[id]]))
    case SessionClose(id, error) =>
      if id in e.conns
      then With(e, e.conns[id], MarkClosed(e.all[e.conns[id]], error)).(conns := e.conns - {id}) else e
    case PacketIn(id, data) =>
      if id in e.conns then With(e, e.conns[id], Enqueue(e.all[e.conns[id]], data)) else ParkPacket(e, id, data)
    case Receive(who) => if who < |e.all| then With(e, who, Recv(e.all[who])) else e
    case Expire(who) => if who < |e.all| then With(e, who, MarkExpired(e.all[who])) else e
    case Accept => AcceptNext(e)
  }

  lemma StepMapped(e: Endpoint, event: Event)
    requires Mapped(e)
    ensures Mapped(Step(e, event))
  {
  }

  function Run(events: seq<Event>): (e: Endpoint)
    ensures Mapped(e)
  {
    if events == [] then NEW_ENDPOINT
    else
      var before, last := Run(events[..|events| - 1]), events[|events| - 1];
      StepMapped(before, last);
      Step(before, last)
  }

  // ---- one connection ----

  function Wrapped(packets: seq<bytes>): seq<Item> {
    seq(|packets|, i requires 0 <= i < |packets| => Packet(packets[i]))
  }

  // The packets enqueued and not yet taken.
  function Left(c: Conn): int { |c.queue| - if c.error.Some? then 1 else 0 }

  function Taken(c: Conn): int { |c.enqueued| - Left(c) }

  // The queue holds the packets not yet taken, and one sentinel at its end once closed. recv()
  // gave every packet taken, in order, and after the last packet of a closed connection only
  // ever raised its error.
  predicate QueueOk(c: Conn) {
    && 0 <= Left(c) <= |c.enqueued|
    && c.queue == Wrapped(c.enqueued[Taken(c)..]) + (if c.error.Some? then [Sentinel] else [])
    && Taken(c) <= |c.outcomes|
    && (forall i :: 0 <= i < Taken(c) ==> c.outcomes[i] == Got(c.enqueued[i]))
    && (forall i :: Taken(c) <= i < |c.outcomes| ==> c.outcomes[i] == Raised(CloseError(c)))
    && (Taken(c) < |c.outcomes| ==> Left(c) == 0 && c.error.Some?)
  }

  // The value the first mark gives the future.
  function Verdict(m: Mark): Future {
    match m
    case Opened => Resolved
    case Closed(error) => Failed(error)
    case Expired => Cancelled
  }

  // The future is settled by the first mark and by no other.
  predicate FutureOk(c: Conn) {
    if c.marks == [] then c.connected == Pending && c.settled == []
    else c.settled == [Verdict(c.marks[0])] && c.connected == c.settled[0]
  }

  // The close is the last mark, and leaves its error.
  predicate MarksOk(c: Conn) {
    && (forall i :: 0 <= i < |c.marks| && c.marks[i].Closed? ==> i == |c.marks| - 1)
    && (if c.error.Some? then c.marks != [] && c.marks[|c.marks| - 1] == Closed(c.error.value)
        else forall m :: m in c.marks ==> !m.Closed?)
  }

  predicate ConnOk(c: Conn) { QueueOk(c) && FutureOk(c) && MarksOk(c) }

  lemma EnqueueOk(c: Conn, data: bytes)
    requires ConnOk(c) && c.error.None?
    ensures ConnOk(Enqueue(c, data))
  {
    var d := Enqueue(c, data);
    assert Taken(d) == Taken(c);
    assert d.enqueued[Taken(d)..] == c.enqueued[Taken(c)..] + [data];
    assert Wrapped(d.enqueued[Taken(d)..]) == Wrapped(c.enqueued[Taken(c)..]) + [Packet(data)];
  }

  lemma {:induction false} EnqueueAllOk(c: Conn, packets: seq<bytes>)
    requires ConnOk(c) && c.error.None?
    ensures var d := EnqueueAll(c, packets);
            ConnOk(d) && d.error.None? && d.enqueued == c.enqueued + packets && d.marks == c.marks
  {
    if packets == [] {
      assert c.enqueued + packets == c.enqueued;
    } else {
      EnqueueAllOk(c, packets[..|packets| - 1]);
      EnqueueOk(EnqueueAll(c, packets[..|packets| - 1]), packets[|packets| - 1]);
    }
  }

  lemma SettleOk(c: Conn, d: Conn)
    requires QueueOk(c)
    requires d.queue == c.queue && d.error == c.error && d.enqueued == c.enqueued && d.outcomes == c.outcomes
    ensures QueueOk(d)
  {
    assert Taken(d) == Taken(c);
  }

  lemma ConnectedOk(c: Conn)
    requires ConnOk(c) && c.error.None?
    ensures ConnOk(MarkConnected(c))
  {
    SettleOk(c, MarkConnected(c));
  }

  lemma ClosedOk(c: Conn, error: int)
    requires ConnOk(c) && c.error.None?
    ensures ConnOk(MarkClosed(c, error))
  {
    assert Taken(MarkClosed(c, error)) == Taken(c);
  }

  lemma ExpiryOk(c: Conn)
    requires ConnOk(c)
    ensures ConnOk(MarkExpired(c))
  {
    SettleOk(c, MarkExpired(c));
  }

  lemma TakeOk(c: Conn)
    requires ConnOk(c) && Left(c) > 0
    ensures ConnOk(Recv(c)) && Recv(c).outcomes == c.outcomes + [Got(c.enqueued[Taken(c)])]
    ensures Left(Recv(c)) == Left(c) - 1
  {
    var d := Recv(c);
    assert c.queue[0] == Wrapped(c.enqueued[Taken(c)..])[0] == Packet(c.enqueued[Taken(c)]);
    assert Taken(d) == Taken(c) + 1;
    assert d.enqueued[Taken(d)..] == c.enqueued[Taken(c)..][1..];
    assert Wrapped(d.enqueued[Taken(d)..]) == Wrapped(c.enqueued[Taken(c)..])[1..];
  }

  lemma RaiseOk(c: Conn)
    requires ConnOk(c) && Left(c) == 0
    ensures ConnOk(Recv(c))
    ensures c.error.Some? ==> Recv(c) == c.(outcomes := c.outcomes + [Raised(c.error.value)])
    ensures c.error.None? ==> Recv(c) == c
  {
    assert c.queue == if c.error.Some? then [Sentinel] else [];
  }

  lemma RecvOk(c: Conn)
    requires ConnOk(c)
    ensures ConnOk(Recv(c)) && Recv(c).error == c.error && Recv(c).enqueued == c.enqueued
  {
    if Left(c) > 0 {
      TakeOk(c);
    } else {
      RaiseOk(c);
    }
  }

  // ---- every run ----

  // Open connections are not closed and have an id each; no packet is parked for them.
  predicate Fine(conns: map<nat, nat>, parked: map<nat, seq<bytes>>, all: seq<Conn>) {
    && (forall id :: id in conns ==> conns[id] < |all| && all[conns[id]].error.None?)
    && (forall id, other :: id in conns && other in conns && conns[id] == conns[other] ==> id == other)
    && (forall who :: 0 <= who < |all| ==> ConnOk(all[who]))
    && (forall id :: id in parked ==> |parked[id]| <= MAX_PENDING_PACKETS && id !in conns)
  }

  predicate EndpointOk(e: Endpoint) { Fine(e.conns, e.parked, e.all) }

  lemma WithKeeps(e: Endpoint, who: nat, c: Conn)
    requires EndpointOk(e) && who < |e.all| && ConnOk(c) && c.error == e.all[who].error
    ensures EndpointOk(With(e, who, c))
  {
  }

  lemma CloseKeeps(e: Endpoint, id: nat, c: Conn)
    requires EndpointOk(e) && id in e.conns && ConnOk(c)
    ensures EndpointOk(With(e, e.conns[id], c).(conns := e.conns - {id}))
  {
  }

  lemma AddKeeps(conns: map<nat, nat>, parked: map<nat, seq<bytes>>, all: seq<Conn>, id: nat, c: Conn)
    requires Fine(conns, parked, all) && ConnOk(c) && c.error.None?
    ensures Fine(conns[id := |all|], parked - {id}, all + [c])
  {
  }

  lemma RegisterKeeps(e: Endpoint, id: nat)
    requires EndpointOk(e)
    ensures EndpointOk(Registered(e, id))
  {
    EnqueueAllOk(NEW_CONN, ParkedFor(e, id));
    AddKeeps(e.conns, e.parked, e.all, id, EnqueueAll(NEW_CONN, ParkedFor(e, id)));
  }

  lemma OpeningKeeps(e: Endpoint, id: nat)
    requires EndpointOk(e)
    ensures EndpointOk(Opening(e, id)) && id in Opening(e, id).conns
  {
    if id !in e.conns {
      RegisterKeeps(e, id);
    }
  }

  lemma MarkKeeps(e: Endpoint, who: nat)
    requires EndpointOk(e) && who < |e.all| && e.all[who].error.None?
    ensures EndpointOk(With(e, who, MarkConnected(e.all[who])))
  {
    ConnectedOk(e.all[who]);
    WithKeeps(e, who, MarkConnected(e.all[who]));
  }

  lemma OpenKeeps(e: Endpoint, id: nat)
    requires EndpointOk(e)
    ensures EndpointOk(Step(e, SessionOpen(id)))
  {
    OpeningKeeps(e, id);
    MarkKeeps(Opening(e, id), Opening(e, id).conns[id]);
  }

  lemma PacketKeeps(e: Endpoint, id: nat, data: bytes)
    requires EndpointOk(e)
    ensures EndpointOk(Step(e, PacketIn(id, data)))
  {
    if id in e.conns {
      EnqueueOk(e.all[e.conns[id]], data);
      WithKeeps(e, e.conns[id], Enqueue(e.all[e.conns[id]], data));
    }
  }

  lemma StepKeeps(e: Endpoint, event: Event)
    requires EndpointOk(e)
    ensures EndpointOk(Step(e, event))
  {
    match event {
      case Register(id) => RegisterKeeps(e, id);
      case SessionOpen(id) => OpenKeeps(e, id);
      case SessionClose(id, error) =>
        if id in e.conns {
          ClosedOk(e.all[e.conns[id]], error);
          CloseKeeps(e, id, MarkClosed(e.all[e.conns[id]], error));
        }
      case PacketIn(id, data) => PacketKeeps(e, id, data);
      case Receive(who) =>
        if who < |e.all| {
          RecvOk(e.all[who]);
          WithKeeps(e, who, Recv(e.all[who]));
        }
      case Expire(who) =>
        if who < |e.all| {
          ExpiryOk(e.all[who]);
          WithKeeps(e, who, MarkExpired(e.all[who]));
        }
      case Accept =>
    }
  }

  lemma {:induction false} RunKeeps(events: seq<Event>)
    ensures EndpointOk(Run(events))
  {
    if events != [] {
      RunKeeps(events[..|events| - 1]);
      StepKeeps(Run(events[..|events| - 1]), events[|events| - 1]);
    }
  }

  // In every run: a queue is the packets not yet taken, followed by exactly one sentinel once
  // the connection is closed; recv() returned the packets enqueued in order, none skipped or
  // repeated, and raised only after the last one, always with the error of the close.
  lemma ReceiveQueueIsSafe(events: seq<Event>, who: nat)
    requires who < |Run(events).all|
    ensures QueueOk(Run(events).all[who])
  {
    RunKeeps(events);
  }

  // In every run the connect future is settled at most once: successfully exactly when the
  // session opened first, with the close error exactly when it closed first.
  lemma FutureIsSettledOnce(events: seq<Event>, who: nat)
    requires who < |Run(events).all|
    ensures var c := Run(events).all[who];
            && |c.settled| <= 1
            && (c.connected == Resolved <==> c.marks != [] && c.marks[0] == Opened)
            && (forall error :: c.connected == Failed(error) <==> c.marks != [] && c.marks[0] == Closed(error))
            && (c.connected == Pending <==> c.marks == [])
            && (c.connected == Cancelled <==> c.marks != [] && c.marks[0] == Expired)
  {
    RunKeeps(events);
  }

  // The connect timeout cancels the wait for a session that has neither opened nor closed, and
  // comes too late for one that has; packets and other connections it leaves alone.
  lemma TimeoutCancels(events: seq<Event>, who: nat)
    requires who < |Run(events).all|
    ensures var e, e1 := Run(events), Run(events + [Expire(who)]);
            var c, c1 := e.all[who], e1.all[who];
            && e1 == e.(all := e.all[who := c1])
            && c1.connected == (if c.marks == [] then Cancelled else c.connected)
            && c1.queue == c.queue && c1.error == c.error && c1.outcomes == c.outcomes
  {
    RunKeeps(events);
    assert (events + [Expire(who)])[..|events|] == events;
  }

  // ---- the connections a server accepts ----

  // After these events the id has a connection.
  predicate HasConn(events: seq<Event>, id: nat) {
    events != [] &&
    var last := events[|events| - 1];
    Registers(last, id)
    || (HasConn(events[..|events| - 1], id) && !(last.SessionClose? && last.id == id))
  }

  // A session opens that has no connection yet: a remote peer's.
  predicate Arrives(before: seq<Event>, event: Event) { event.SessionOpen? && !HasConn(before, event.id) }

  predicate Makes(before: seq<Event>, event: Event) { event.Register? || Arrives(before, event) }

  // How many connections these events make.
  function Made(events: seq<Event>): nat {
    if events == [] then 0
    else
      var front := events[..|events| - 1];
      Made(front) + if Makes(front, events[|events| - 1]) then 1 else 0
  }

  // Those that arrived, in order, by when they were made.
  function Arrived(events: seq<Event>): seq<nat> {
    if events == [] then []
    else
      var front := events[..|events| - 1];
      Arrived(front) + if Arrives(front, events[|events| - 1]) then [Made(front)] else []
  }

  // How many of them the accept loop has taken: one each turn, while there is one.
  function Turns(events: seq<Event>): nat {
    if events == [] then 0
    else
      var front := events[..|events| - 1];
      Turns(front) + if events[|events| - 1].Accept? && Turns(front) < |Arrived(front)| then 1 else 0
  }

  // Each arrived connection is listed once, later ones later, and no other is listed.
  lemma {:induction false} ArrivedExactly(events: seq<Event>)
    ensures forall i, j :: 0 <= i < j < |Arrived(events)| ==> Arrived(events)[i] < Arrived(events)[j]
    ensures forall who :: who in Arrived(events) ==> who < Made(events)
    ensures forall k :: 0 <= k < |events| && Makes(events[..k], events[k]) ==>
              && Made(events[..k]) < Made(events)
              && (Made(events[..k]) in Arrived(events) <==> events[k].SessionOpen?)
  {
    if events != [] {
      var n := |events| - 1;
      var front, last := events[..n], events[n];
      ArrivedExactly(front);
      assert Arrived(events) == if Arrives(front, last) then Arrived(front) + [Made(front)] else Arrived(front);
      assert forall i :: 0 <= i < |Arrived(front)| ==> Arrived(front)[i] in Arrived(front);
      forall k | 0 <= k < |events| && Makes(events[..k], events[k])
        ensures Made(events[..k]) < Made(events)
        ensures Made(events[..k]) in Arrived(events) <==> events[k].SessionOpen?
      {
        if k < n {
          assert front[..k] == events[..k] && front[k] == events[k];
        } else {
          assert events[..k] == front && events[k] == last;
        }
      }
    }
  }

  ghost predicate ServerOk(e: Endpoint, events: seq<Event>) {
    && |e.all| == Made(events)
    && (forall id :: id in e.conns <==> HasConn(events, id))
    && e.handled + e.incoming == Arrived(events)
    && |e.handled| == Turns(events)
    && (forall who :: who in Arrived(events) ==> who < |e.all| && e.all[who].marks != [] && e.all[who].marks[0] == Opened)
  }

  // Marks are only added.
  lemma MarksStay(e: Endpoint, event: Event, who: nat)
    requires Mapped(e) && who < |e.all| && e.all[who].marks != []
    ensures who < |Step(e, event).all| && Step(e, event).all[who].marks != []
    ensures Step(e, event).all[who].marks[0] == e.all[who].marks[0]
  {
  }

  lemma ArrivalIsMarked(e: Endpoint, id: nat)
    requires EndpointOk(e) && id !in e.conns
    ensures var e1 := Step(e, SessionOpen(id));
            && e1.incoming == e.incoming + [|e.all|] && e1.handled == e.handled
            && |e1.all| == |e.all| + 1 && e1.all[|e.all|].marks == [Opened]
  {
    EnqueueAllOk(NEW_CONN, ParkedFor(e, id));
  }

  lemma OtherSteps(e: Endpoint, event: Event)
    requires Mapped(e) && (event.SessionOpen? ==> event.id in e.conns)
    ensures var e1 := Step(e, event);
            && |e1.all| == |e.all| + (if event.Register? then 1 else 0)
            && e1.handled + e1.incoming == e.handled + e.incoming
            && |e1.handled| == |e.handled| + if event.Accept? && e.incoming != [] then 1 else 0
  {
  }

  lemma ConnsStep(e: Endpoint, event: Event, id: nat)
    requires Mapped(e)
    ensures id in Step(e, event).conns
            <==> Registers(event, id) || (id in e.conns && !(event.SessionClose? && event.id == id))
  {
  }

  // In every run the connections waiting to be accepted, after those already handed to a handler,
  // are exactly those of the sessions that opened without one, in order; each is connected, and
  // the accept loop has taken as many as it had turns.
  lemma {:induction false} AcceptedInOrder(events: seq<Event>)
    ensures ServerOk(Run(events), events)
  {
    if events != [] {
      var front, last := events[..|events| - 1], events[|events| - 1];
      var e := Run(front);
      AcceptedInOrder(front);
      RunKeeps(front);
      forall id ensures id in Step(e, last).conns <==> HasConn(events, id) {
        ConnsStep(e, last, id);
      }
      forall who | who in Arrived(front)
        ensures who < |Step(e, last).all| && Step(e, last).all[who].marks != []
        ensures Step(e, last).all[who].marks[0] == Opened
      {
        MarksStay(e, last, who);
      }
      if Arrives(front, last) {
        ArrivalIsMarked(e, last.id);
      } else {
        OtherSteps(e, last);
      }
    }
  }

  function RecvTimes(c: Conn, n: nat): Conn {
    if n == 0 then c else Recv(RecvTimes(c, n - 1))
  }

  // On a closed connection recv() never waits: it returns what is left in order, then raises the
  // close error every time.
  lemma {:induction false} DrainsThenRaises(c: Conn, n: nat)
    requires ConnOk(c) && c.error.Some?
    ensures var d := RecvTimes(c, n);
            && ConnOk(d) && d.error == c.error && d.enqueued == c.enqueued
            && |d.outcomes| == |c.outcomes| + n
            && (forall i :: 0 <= i < |d.outcomes| ==>
                  d.outcomes[i] == if i < |c.enqueued| then Got(c.enqueued[i]) else Raised(c.error.value))
  {
    if n > 0 {
      DrainsThenRaises(c, n - 1);
      var b := RecvTimes(c, n - 1);
      RecvOk(b);
      if Left(b) > 0 {
        TakeOk(b);
      } else {
        RaiseOk(b);
      }
    } else {
      assert Taken(c) == |c.enqueued| - Left(c);
    }
  }

  // ---- from the session to the application ----

  function Packets(events: seq<Event>, id: nat): seq<bytes> {
    if events == [] then []
    else
      var last := events[|events| - 1];
      Packets(events[..|events| - 1], id) + if last.PacketIn? && last.id == id then [last.data] else []
  }

  function Capped(packets: seq<bytes>): seq<bytes> {
    if |packets| <= MAX_PENDING_PACKETS then packets else packets[..MAX_PENDING_PACKETS]
  }

  predicate Registers(event: Event, id: nat) {
    (event.Register? && event.id == id) || (event.SessionOpen? && event.id == id)
  }

  // The event makes a connection for the id, which takes what is parked.
  predicate Creates(e: Endpoint, event: Event, id: nat) {
    Registers(event, id) && (event.SessionOpen? ==> id !in e.conns)
  }

  // The packets that arrived for an id while it had no connection, since one last took them.
  function Unclaimed(events: seq<Event>, id: nat): seq<bytes> {
    if events == [] then []
    else
      var front, last := events[..|events| - 1], events[|events| - 1];
      if Creates(Run(front), last, id) then []
      else Unclaimed(front, id) + if last.PacketIn? && last.id == id && id !in Run(front).conns then [last.data] else []
  }

  lemma ParkStep(e: Endpoint, event: Event, id: nat, packets: seq<bytes>)
    requires EndpointOk(e) && ParkedFor(e, id) == Capped(packets)
    ensures ParkedFor(Step(e, event), id)
            == if Creates(e, event, id) then []
               else Capped(packets + if event.PacketIn? && event.id == id && id !in e.conns then [event.data] else [])
  {
    assert packets + [] == packets;
    if event.PacketIn? && event.id == id {
      assert |packets| <= MAX_PENDING_PACKETS || (packets + [event.data])[..MAX_PENDING_PACKETS] == Capped(packets);
    }
  }

  // In every run the packets parked for an id are the first 256 of these.
  lemma {:induction false} ParkedPackets(events: seq<Event>, id: nat)
    ensures ParkedFor(Run(events), id) == Capped(Unclaimed(events, id))
  {
    if events != [] {
      var front, last := events[..|events| - 1], events[|events| - 1];
      ParkedPackets(front, id);
      RunKeeps(front);
      ParkStep(Run(front), last, id, Unclaimed(front, id));
    }
  }

  // While nothing registers an id without a connection, they are joined by all that arrives for it.
  lemma {:induction false} UnclaimedGrows(before: seq<Event>, events: seq<Event>, id: nat)
    requires id !in Run(before).conns && forall event :: event in events ==> !Registers(event, id)
    ensures id !in Run(before + events).conns
    ensures Unclaimed(before + events, id) == Unclaimed(before, id) + Packets(events, id)
  {
    if events == [] {
      assert before + events == before;
    } else {
      var front, last := events[..|events| - 1], events[|events| - 1];
      assert forall event :: event in front ==> event in events;
      UnclaimedGrows(before, front, id);
      RunAppend(before, events);
      assert (before + events)[..|before + events| - 1] == before + front;
      assert last in events;
      StaysUnmapped(Run(before + front), last, id);
    }
  }

  lemma StaysUnmapped(e: Endpoint, event: Event, id: nat)
    requires Mapped(e) && id !in e.conns && !Registers(event, id)
    ensures id !in Step(e, event).conns
  {
  }

  predicate Holds(e: Endpoint, id: nat, who: nat, packets: seq<bytes>) {
    id in e.conns && e.conns[id] == who < |e.all| && e.all[who].enqueued == packets
  }

  lemma HoldsOpen(e: Endpoint, other: nat, id: nat, who: nat, packets: seq<bytes>)
    requires EndpointOk(e) && Holds(e, id, who, packets)
    ensures Holds(Step(e, SessionOpen(other)), id, who, packets)
  {
  }

  lemma HoldsStep(e: Endpoint, event: Event, id: nat, who: nat, packets: seq<bytes>)
    requires EndpointOk(e) && Holds(e, id, who, packets)
    requires !event.Register? || event.id != id
    requires !event.SessionClose? || event.id != id
    ensures Holds(Step(e, event), id, who,
                  packets + if event.PacketIn? && event.id == id then [event.data] else [])
  {
    assert packets + [] == packets;
    if event.SessionOpen? {
      HoldsOpen(e, event.id, id, who, packets);
    }
  }

  lemma MadeHolds(e: Endpoint, id: nat)
    requires EndpointOk(e)
    ensures Holds(Registered(e, id), id, |e.all|, ParkedFor(e, id))
  {
    EnqueueAllOk(NEW_CONN, ParkedFor(e, id));
    assert NEW_CONN.enqueued + ParkedFor(e, id) == ParkedFor(e, id);
  }

  lemma RegisteredHolds(e: Endpoint, event: Event, id: nat)
    requires EndpointOk(e) && Creates(e, event, id)
    ensures Holds(Step(e, event), id, |e.all|, ParkedFor(e, id))
  {
    MadeHolds(e, id);
  }

  // Nothing in this stretch registers the id anew or closes its session.
  predicate KeepsOpen(events: seq<Event>, id: nat) {
    forall event :: event in events ==>
      (event.Register? ==> event.id != id) && (event.SessionClose? ==> event.id != id)
  }

  lemma RunAppend(before: seq<Event>, events: seq<Event>)
    requires events != []
    ensures Run(before + events) == Step(Run(before + events[..|events| - 1]), events[|events| - 1])
  {
    assert (before + events)[..|before + events| - 1] == before + events[..|events| - 1];
  }

  lemma {:induction false} HoldsRun(before: seq<Event>, events: seq<Event>, id: nat, who: nat, packets: seq<bytes>)
    requires Holds(Run(before), id, who, packets) && KeepsOpen(events, id)
    ensures Holds(Run(before + events), id, who, packets + Packets(events, id))
  {
    if events == [] {
      assert before + events == before && packets + [] == packets;
    } else {
      var front, last := events[..|events| - 1], events[|events| - 1];
      HoldsRun(before, front, id, who, packets);
      RunAppend(before, events);
      RunKeeps(before + front);
      HoldsStep(Run(before + front), last, id, who, packets + Packets(front, id));
      var more := if last.PacketIn? && last.id == id then [last.data] else [];
      assert packets + Packets(front, id) + more == packets + (Packets(front, id) + more);
    }
  }

  // A closed connection is out of the endpoint's reach.
  predicate Retired(e: Endpoint, who: nat, error: int, packets: seq<bytes>) {
    && who < |e.all| && e.all[who].error == Some(error) && e.all[who].enqueued == packets
    && (forall id :: id in e.conns ==> e.conns[id] != who)
  }

  lemma RetiredStep(e: Endpoint, event: Event, who: nat, error: int, packets: seq<bytes>)
    requires EndpointOk(e) && Retired(e, who, error, packets)
    ensures Retired(Step(e, event), who, error, packets)
  {
  }

  lemma {:induction false} RetiredRun(before: seq<Event>, events: seq<Event>, who: nat, error: int, packets: seq<bytes>)
    requires Retired(Run(before), who, error, packets)
    ensures Retired(Run(before + events), who, error, packets)
  {
    if events == [] {
      assert before + events == before;
    } else {
      var front := events[..|events| - 1];
      RetiredRun(before, front, who, error, packets);
      RunAppend(before, events);
      RunKeeps(before + front);
      RetiredStep(Run(before + front), events[|events| - 1], who, error, packets);
    }
  }

  lemma CloseRetires(e: Endpoint, id: nat, who: nat, error: int, packets: seq<bytes>)
    requires EndpointOk(e) && Holds(e, id, who, packets)
    ensures Retired(Step(e, SessionClose(id, error)), who, error, packets)
  {
  }

  lemma OpenThenClose(pre: seq<Event>, reg: Event, mid: seq<Event>, error: int, id: nat)
    requires Creates(Run(pre), reg, id) && KeepsOpen(mid, id)
    ensures Retired(Run(pre + [reg] + mid + [SessionClose(id, error)]), |Run(pre).all|, error,
                    Capped(Unclaimed(pre, id)) + Packets(mid, id))
  {
    ParkedPackets(pre, id);
    RunKeeps(pre);
    RegisteredHolds(Run(pre), reg, id);
    assert (pre + [reg])[..|pre|] == pre;
    HoldsRun(pre + [reg], mid, id, |Run(pre).all|, Capped(Unclaimed(pre, id)));
    var all := pre + [reg] + mid;
    RunKeeps(all);
    assert (all + [SessionClose(id, error)])[..|all|] == all;
    CloseRetires(Run(all), id, |Run(pre).all|, error, Capped(Unclaimed(pre, id)) + Packets(mid, id));
  }

  // Whatever happened before, to other connections or under the same id, and whenever recv() is
  // called: what a connection ever gives is the first 256 packets unclaimed when it was made and
  // every packet that arrived between then and its close, in order, and after them the error of
  // the close, always.
  lemma PacketsThenCloseError(
      pre: seq<Event>, reg: Event, mid: seq<Event>, error: int, post: seq<Event>, id: nat, n: nat)
    requires Creates(Run(pre), reg, id) && KeepsOpen(mid, id)
    ensures var e := Run(pre + [reg] + mid + [SessionClose(id, error)] + post);
            var who := |Run(pre).all|;
            var packets := Capped(Unclaimed(pre, id)) + Packets(mid, id);
            && who < |e.all|
            && |RecvTimes(e.all[who], n).outcomes| == |e.all[who].outcomes| + n
            && forall i :: 0 <= i < |RecvTimes(e.all[who], n).outcomes| ==>
                 RecvTimes(e.all[who], n).outcomes[i] == if i < |packets| then Got(packets[i]) else Raised(error)
  {
    OpenThenClose(pre, reg, mid, error, id);
    var closed := pre + [reg] + mid + [SessionClose(id, error)];
    RetiredRun(closed, post, |Run(pre).all|, error, Capped(Unclaimed(pre, id)) + Packets(mid, id));
    RunKeeps(closed + post);
    DrainsThenRaises(Run(closed + post).all[|Run(pre).all|], n);
  }
}
