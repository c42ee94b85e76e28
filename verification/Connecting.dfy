// connect(), from the session to the future the application waits for: the session's callbacks
// become the endpoint's events, and the connection is registered when start() returns.
module Connecting {
  import opened Basics
  import opened Sessions
  import E = Endpoints

  // A dialer's session under its clock, the endpoint, the connection once start() has returned,
  // and how many callbacks had been fired by then.
  datatype Attempt = Attempt(t: Timed, endpoint: E.Endpoint, conn: Option<nat>, before: nat)

  // An event of the session, or one of the endpoint that is none of this session's callbacks.
  datatype ConnectEvent = OnSession(te: TimedEvent) | OnEndpoint(event: E.Event)

  // on_session_open and on_session_close.
  function CallbackEvent(id: nat, c: Callback): E.Event {
    match c
    case Opened => E.SessionOpen(id)
    case Closed(error) => E.SessionClose(id, error)
  }

  function Notified(endpoint: E.Endpoint, id: nat, log: seq<Callback>, log1: seq<Callback>): E.Endpoint
    requires E.Mapped(endpoint)
  {
    if |log1| > |log| then E.Step(endpoint, CallbackEvent(id, log1[|log1| - 1])) else endpoint
  }

  lemma NotifiedMapped(endpoint: E.Endpoint, id: nat, log: seq<Callback>, log1: seq<Callback>)
    requires E.Mapped(endpoint)
    ensures E.Mapped(Notified(endpoint, id, log, log1))
  {
    if |log1| > |log| {
      E.StepMapped(endpoint, CallbackEvent(id, log1[|log1| - 1]));
    }
  }

  function AttemptStep(a: Attempt, e: ConnectEvent): (a1: Attempt)
    requires E.Mapped(a.endpoint)
    ensures E.Mapped(a1.endpoint)
  {
    match e
    case OnEndpoint(event) =>
      E.StepMapped(a.endpoint, event);
      a.(endpoint := E.Step(a.endpoint, event))
    case OnSession(te) =>
      var t := TimedStep(a.t, te);
      var endpoint := Notified(a.endpoint, a.t.s.id, a.t.s.log, t.s.log);
      NotifiedMapped(a.endpoint, a.t.s.id, a.t.s.log, t.s.log);
      E.StepMapped(endpoint, E.Register(a.t.s.id));
      if te.e.OfferReady?
      then Attempt(t, E.Step(endpoint, E.Register(a.t.s.id)), Some(|endpoint.all|), |t.s.log|)
      else a.(t := t, endpoint := endpoint)
  }

  function Begin(id: nat, past: seq<E.Event>): Attempt {
    Attempt(Timed(Fresh(id, true), 0.0, 0.0, false), E.Run(past), None, 0)
  }

  // The session is created when the endpoint has seen these events.
  function AttemptRun(id: nat, past: seq<E.Event>, events: seq<ConnectEvent>): (a: Attempt)
    ensures E.Mapped(a.endpoint)
  {
    if events == [] then Begin(id, past)
    else AttemptStep(AttemptRun(id, past, events[..|events| - 1]), events[|events| - 1])
  }

  // The session's own events.
  function SessionEvents(events: seq<ConnectEvent>): seq<TimedEvent> {
    if events == [] then []
    else
      var last := events[|events| - 1];
      SessionEvents(events[..|events| - 1]) + if last.OnSession? then [last.te] else []
  }

  lemma {:induction false} AttemptTimes(id: nat, past: seq<E.Event>, events: seq<ConnectEvent>)
    ensures AttemptRun(id, past, events).t
            == TimedRun(Timed(Fresh(id, true), 0.0, 0.0, false), SessionEvents(events))
  {
    if events != [] {
      var front, last := events[..|events| - 1], events[|events| - 1];
      AttemptTimes(id, past, front);
      if last.OnSession? {
        assert SessionEvents(events)[..|SessionEvents(front)|] == SessionEvents(front);
      } else {
        assert SessionEvents(events) == SessionEvents(front);
      }
    }
  }

  // start() is called once, on a dialer, and no other session has the id.
  predicate Ordinary(id: nat, e: ConnectEvent, started: bool) {
    match e
    case OnSession(te) => FitsRole(true, te.e) && (te.e.OfferReady? ==> !started)
    case OnEndpoint(event) => !E.Registers(event, id) && (event.SessionClose? ==> event.id != id)
  }

  predicate AllOrdinary(id: nat, past: seq<E.Event>, events: seq<ConnectEvent>) {
    events != [] ==>
      var front := events[..|events| - 1];
      AllOrdinary(id, past, front) && Ordinary(id, events[|events| - 1], AttemptRun(id, past, front).conn.Some?)
  }

  // The value the first callback since start() returned gives the future.
  function Outcome(log: seq<Callback>): E.Future {
    if log == [] then E.Pending else match log[0] case Opened => E.Resolved case Closed(error) => E.Failed(error)
  }

  // The future follows the callbacks, unless the connect timeout cancelled it.
  predicate Follows(connected: E.Future, log: seq<Callback>) {
    connected == E.Cancelled || connected == Outcome(log)
  }

  // What the callbacks since start() returned say about the session.
  predicate SessionOk(s: Session, before: nat) {
    && s.isDialer && RolePhase(s) && before <= |s.log|
    && s.phase != IDLE && (s.phase == CONNECTED || s.phase == CLOSED <==> s.log[before..] != [])
  }

  // The connection is mapped while the session lives, under its id and no other.
  predicate ConnectionOk(endpoint: E.Endpoint, s: Session, conn: nat, before: nat)
    requires before <= |s.log|
  {
    && E.EndpointOk(endpoint) && conn < |endpoint.all|
    && Follows(endpoint.all[conn].connected, s.log[before..])
    && (s.phase != CLOSED ==> s.id in endpoint.conns && endpoint.conns[s.id] == conn)
    && (forall id :: id in endpoint.conns && endpoint.conns[id] == conn ==> id == s.id)
  }

  predicate AttemptOk(a: Attempt) {
    var s := a.t.s;
    && E.EndpointOk(a.endpoint) && s.isDialer && RolePhase(s)
    && (a.conn.Some? ==>
          a.t.waiting && SessionOk(s, a.before) && ConnectionOk(a.endpoint, s, a.conn.value, a.before))
  }

  // ---- the session ----

  // One event after start() returned: nothing to report, or the one callback of its new phase.
  lemma SessionAdvances(s: Session, e: Event, before: nat)
    requires SessionOk(s, before) && FitsRole(true, e) && !e.OfferReady?
    ensures var s1 := Step(s, e);
            && SessionOk(s1, before) && s1.id == s.id
            && if s1.log == s.log then (s1.phase == CLOSED <==> s.phase == CLOSED)
               else && |s1.log| == |s.log| + 1 && s1.log[..|s.log|] == s.log && s.phase != CLOSED
                    && (s1.log[|s.log|] == Opened ==> s1.phase == CONNECTED && s.log[before..] == [])
                    && (s1.log[|s.log|] != Opened ==> s1.phase == CLOSED)
  {
    StepClimbsIff(s, e);
    StepKeepsIdentity(s, e);
  }

  // ---- the connection ----

  lemma {:induction false} FreshIsPending(c: E.Conn, packets: seq<bytes>)
    ensures E.EnqueueAll(c, packets).connected == c.connected
  {
    if packets != [] {
      FreshIsPending(c, packets[..|packets| - 1]);
    }
  }

  // Events of others leave the connection's route alone, and its future unless they cancel it.
  predicate Untouched(endpoint: E.Endpoint, endpoint1: E.Endpoint, id: nat, conn: nat)
    requires conn < |endpoint.all|
  {
    && conn < |endpoint1.all|
    && (endpoint1.all[conn].connected == endpoint.all[conn].connected
        || endpoint1.all[conn].connected == E.Cancelled)
    && (id in endpoint1.conns <==> id in endpoint.conns)
    && (id in endpoint.conns ==> endpoint1.conns[id] == endpoint.conns[id])
    && forall other :: other in endpoint1.conns && endpoint1.conns[other] == conn ==> other == id
  }

  lemma OthersOpen(endpoint: E.Endpoint, other: nat, id: nat, conn: nat)
    requires E.EndpointOk(endpoint) && conn < |endpoint.all| && other != id
    requires forall o :: o in endpoint.conns && endpoint.conns[o] == conn ==> o == id
    ensures Untouched(endpoint, E.Step(endpoint, E.SessionOpen(other)), id, conn)
  {
  }

  lemma OthersClose(endpoint: E.Endpoint, other: nat, error: int, id: nat, conn: nat)
    requires E.EndpointOk(endpoint) && conn < |endpoint.all| && other != id
    requires forall o :: o in endpoint.conns && endpoint.conns[o] == conn ==> o == id
    ensures Untouched(endpoint, E.Step(endpoint, E.SessionClose(other, error)), id, conn)
  {
  }

  lemma OthersPacket(endpoint: E.Endpoint, other: nat, data: bytes, id: nat, conn: nat)
    requires E.EndpointOk(endpoint) && conn < |endpoint.all|
    requires forall o :: o in endpoint.conns && endpoint.conns[o] == conn ==> o == id
    ensures Untouched(endpoint, E.Step(endpoint, E.PacketIn(other, data)), id, conn)
  {
  }

  lemma OthersKeep(endpoint: E.Endpoint, event: E.Event, id: nat, conn: nat)
    requires E.EndpointOk(endpoint) && conn < |endpoint.all|
    requires forall other :: other in endpoint.conns && endpoint.conns[other] == conn ==> other == id
    requires !E.Registers(event, id) && (event.SessionClose? ==> event.id != id)
    ensures Untouched(endpoint, E.Step(endpoint, event), id, conn)
  {
    match event {
      case SessionOpen(other) => OthersOpen(endpoint, other, id, conn);
      case SessionClose(other, error) => OthersClose(endpoint, other, error, id, conn);
      case PacketIn(other, data) => OthersPacket(endpoint, other, data, id, conn);
      case _ =>
    }
  }

  lemma OpenNotified(endpoint: E.Endpoint, s: Session, s1: Session, conn: nat, before: nat)
    requires before <= |s.log| && ConnectionOk(endpoint, s, conn, before) && s.phase != CLOSED
    requires s1.log == s.log + [Opened] && s.log[before..] == [] && s1.id == s.id && s1.phase == CONNECTED
    ensures ConnectionOk(E.Step(endpoint, E.SessionOpen(s.id)), s1, conn, before)
  {
    E.StepKeeps(endpoint, E.SessionOpen(s.id));
    assert s1.log[before..] == [Opened];
  }

  lemma CloseNotified(endpoint: E.Endpoint, s: Session, s1: Session, conn: nat, before: nat, error: int)
    requires before <= |s.log| && ConnectionOk(endpoint, s, conn, before) && s.phase != CLOSED
    requires s1.log == s.log + [Closed(error)] && s1.id == s.id && s1.phase == CLOSED
    ensures ConnectionOk(E.Step(endpoint, E.SessionClose(s.id, error)), s1, conn, before)
  {
    E.StepKeeps(endpoint, E.SessionClose(s.id, error));
    assert s1.log[before..] == s.log[before..] + [Closed(error)];
  }

  lemma NotifiedKeeps(endpoint: E.Endpoint, s: Session, e: Event, conn: nat, before: nat)
    requires SessionOk(s, before) && ConnectionOk(endpoint, s, conn, before)
    requires FitsRole(true, e) && !e.OfferReady?
    ensures SessionOk(Step(s, e), before)
    ensures ConnectionOk(Notified(endpoint, s.id, s.log, Step(s, e).log), Step(s, e), conn, before)
  {
    var s1 := Step(s, e);
    SessionAdvances(s, e, before);
    if s1.log != s.log {
      assert s1.log == s.log + [s1.log[|s.log|]];
      match s1.log[|s.log|] {
        case Opened => OpenNotified(endpoint, s, s1, conn, before);
        case Closed(error) => CloseNotified(endpoint, s, s1, conn, before, error);
      }
    }
  }

  // start() returns: whatever became of the session before, it waits, and so does the connection.
  lemma StartReturns(endpoint: E.Endpoint, s: Session, e: Event)
    requires E.EndpointOk(endpoint) && s.isDialer && RolePhase(s) && e.OfferReady?
    ensures var s1, endpoint1 := Step(s, e), E.Step(endpoint, E.Register(s.id));
            && s1.log == s.log && RolePhase(s1) && SessionOk(s1, |s1.log|)
            && ConnectionOk(endpoint1, s1, |endpoint.all|, |s1.log|)
  {
    E.StepKeeps(endpoint, E.Register(s.id));
    FreshIsPending(E.NEW_CONN, E.ParkedFor(endpoint, s.id));
    StepKeepsIdentity(s, e);
  }

  // ---- every run ----

  lemma AttemptStepKeeps(a: Attempt, e: ConnectEvent)
    requires AttemptOk(a) && Ordinary(a.t.s.id, e, a.conn.Some?)
    ensures AttemptOk(AttemptStep(a, e)) && AttemptStep(a, e).t.s.id == a.t.s.id
  {
    var s := a.t.s;
    match e {
      case OnEndpoint(event) =>
        E.StepKeeps(a.endpoint, event);
        if a.conn.Some? {
          OthersKeep(a.endpoint, event, s.id, a.conn.value);
        }
      case OnSession(te) =>
        StepKeepsIdentity(s, te.e);
        StepClimbsIff(s, te.e);
        if a.conn.Some? {
          NotifiedKeeps(a.endpoint, s, te.e, a.conn.value, a.before);
        } else {
          BeforeStart(a.endpoint, s, te.e);
        }
    }
  }

  lemma NotifiedIsOk(endpoint: E.Endpoint, id: nat, log: seq<Callback>, log1: seq<Callback>)
    requires E.EndpointOk(endpoint)
    ensures E.EndpointOk(Notified(endpoint, id, log, log1))
  {
    if |log1| > |log| {
      E.StepKeeps(endpoint, CallbackEvent(id, log1[|log1| - 1]));
    }
  }

  lemma BeforeStart(endpoint: E.Endpoint, s: Session, e: Event)
    requires E.EndpointOk(endpoint) && s.isDialer && RolePhase(s) && FitsRole(true, e)
    ensures E.EndpointOk(Notified(endpoint, s.id, s.log, Step(s, e).log))
    ensures e.OfferReady? ==>
              var s1, endpoint1 := Step(s, e), E.Step(endpoint, E.Register(s.id));
              && s1.log == s.log && SessionOk(s1, |s1.log|)
              && ConnectionOk(endpoint1, s1, |endpoint.all|, |s1.log|)
  {
    NotifiedIsOk(endpoint, s.id, s.log, Step(s, e).log);
    if e.OfferReady? {
      StartReturns(endpoint, s, e);
    }
  }

  lemma {:induction false} AttemptsKeep(id: nat, past: seq<E.Event>, events: seq<ConnectEvent>)
    requires AllOrdinary(id, past, events)
    ensures AttemptOk(AttemptRun(id, past, events)) && AttemptRun(id, past, events).t.s.id == id
  {
    if events == [] {
      E.RunKeeps(past);
    } else {
      var front := events[..|events| - 1];
      AttemptsKeep(id, past, front);
      AttemptStepKeeps(AttemptRun(id, past, front), events[|events| - 1]);
    }
  }

  // With timeout T and a punctual clock, whatever happens in the window of start(), a close
  // included: once more than 2T has passed since the offer the connect future is settled, and
  // unless the connect timeout cancelled it, with what happened to the session first since start()
  // returned: success when it opened, the close error when it closed.
  lemma ConnectIsSettled(id: nat, past: seq<E.Event>, events: seq<ConnectEvent>, timeout: real, now: real)
    requires AllOrdinary(id, past, events) && AttemptRun(id, past, events).conn.Some? && timeout >= 0.0
    requires Punctual(Timed(Fresh(id, true), 0.0, 0.0, false), timeout, SessionEvents(events))
    requires var t := AttemptRun(id, past, events).t;
             Due(t, timeout, now) && now > t.sentAt + 2.0 * timeout
    ensures var a := AttemptRun(id, past, events);
            && a.conn.value < |a.endpoint.all| && a.before < |a.t.s.log|
            && var connected := a.endpoint.all[a.conn.value].connected;
               || connected == E.Cancelled
               || connected == match a.t.s.log[a.before] case Opened => E.Resolved case Closed(e) => E.Failed(e)
  {
    AttemptsKeep(id, past, events);
    AttemptTimes(id, past, events);
    NegotiationIsBounded(id, true, timeout, SessionEvents(events), now);
    var a := AttemptRun(id, past, events);
    assert a.t.s.log[a.before..] != [];
  }
}
