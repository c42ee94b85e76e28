// Routing of signaling text to sessions, with every coroutine of the manager cut at its awaits.
module Managers {
  import opened Basics
  import S = Signaling
  import opened Sessions

  const MAX_PENDING_CANDIDATES := 64

  // A suspended coroutine. `who` is the index of its session in creation order; `first` marks
  // the request handler that created the session and will replay the parked candidates.
  datatype Task =
    | Offering(who: nat)                                              // start(): creating the offer
    | ApplyingAnswer(who: nat, sdp: string)                           // set_remote_answer()
    | ApplyingOffer(who: nat, sdp: string, first: bool)               // create_answer(): setting the offer
    | Flushing(who: nat, next: nat, answering: bool, first: bool)     // the candidate flush loop
    | Answering(who: nat, first: bool)                                // create_answer(): creating the answer
    | Replaying(who: nat, rest: seq<string>)                          // _flush_pending_candidates(), `rest` to come
    | Done

  datatype Manager = Manager(
    routes: map<nat, nat>, parked: map<nat, seq<string>>, sessions: seq<Session>, tasks: seq<Task>)

  datatype MEvent =
    | Connect(id: nat)                      // connect(), up to its await
    | Receive(text: string)                 // handle_signal(), up to its await
    | Resume(task: nat, sdp: string)        // a coroutine resumes; the library hands it an SDP if it wants one
    | External(who: nat, e: Event)          // a transport callback, the timer, or a close by the application

  const NEW_MANAGER := Manager(map[], map[], [], [])

  predicate TaskFits(t: Task, sessions: seq<Session>) {
    t.Done? ||
    (t.who < |sessions|
     && (sessions[t.who].isDialer <==> t.Offering? || t.ApplyingAnswer? || (t.Flushing? && !t.answering)))
  }

  predicate WellFormed(m: Manager) {
    && (forall id :: id in m.routes ==> m.routes[id] < |m.sessions|)
    && (forall i :: 0 <= i < |m.tasks| ==> TaskFits(m.tasks[i], m.sessions))
  }

  // Runs a session event; when it closes the session, on_close takes the id off the routes.
  function Apply(m: Manager, who: nat, e: Event): Manager
    requires who < |m.sessions|
  {
    var s, s1 := m.sessions[who], Step(m.sessions[who], e);
    m.(sessions := m.sessions[who := s1],
       routes := if s.phase != CLOSED && s1.phase == CLOSED then m.routes - {s.id} else m.routes)
  }

  function Spawn(m: Manager, t: Task): Manager { m.(tasks := m.tasks + [t]) }

  function Create(m: Manager, id: nat, isDialer: bool): Manager {
    m.(sessions := m.sessions + [Fresh(id, isDialer)], routes := m.routes[id := |m.sessions|])
  }

  function Parked(m: Manager, id: nat): seq<string> {
    if id in m.parked then m.parked[id] else []
  }

  function Park(m: Manager, id: nat, candidate: string): Manager {
    var buffer := Parked(m, id);
    m.(parked := m.parked[id := if |buffer| < MAX_PENDING_CANDIDATES then buffer + [candidate] else buffer])
  }

  // Session.handle_signal(), up to its await.
  function Dispatch(m: Manager, who: nat, message: S.Message, first: bool): Manager
    requires who < |m.sessions|
  {
    var s := m.sessions[who];
    if s.phase == CLOSED then m
    else
      match message
      case ConnectError(_, error) => Apply(m, who, ErrorArrived(error))
      case CandidateAdd(_, candidate) => Apply(m, who, CandidateArrived(candidate))
      case ConnectResponse(_, sdp) =>
        if s.isDialer && s.phase == OFFER_SENT
        then Spawn(Apply(m, who, AnswerArrived), ApplyingAnswer(who, sdp)) else m
      case ConnectRequest(_, sdp) =>
        if !s.isDialer && s.phase == IDLE then Spawn(m, ApplyingOffer(who, sdp, first)) else m
  }

  function HandleSignal(m: Manager, text: string): Manager
    requires WellFormed(m)
  {
    match S.Parse(text)
    case None => m
    case Some(message) =>
      if message.id in m.routes then Dispatch(m, m.routes[message.id], message, false)
      else
        match message
        case ConnectRequest(id, _) => Dispatch(Create(m, id, false), |m.sessions|, message, true)
        case CandidateAdd(id, candidate) => Park(m, id, candidate)
        case _ => m
  }

  function SetTask(m: Manager, i: nat, t: Task): Manager
    requires i < |m.tasks|
  {
    m.(tasks := m.tasks[i := t])
  }

  // The session event a resumed coroutine runs, `parked` being what the manager holds for its
  // session. The first answer takes that list and goes straight on to its first candidate.
  function EventOf(t: Task, sdp: string, parked: seq<string>): Option<Event> {
    match t
    case Offering(_) => Some(OfferReady(sdp, true))
    case ApplyingAnswer(_, answer) => Some(Described(answer))
    case ApplyingOffer(_, offer, _) => Some(Described(offer))
    case Flushing(_, next, _, _) => Some(Flush(next))
    case Answering(_, first) => Some(AnswerReady(sdp, true, if first && parked != [] then Some(parked[0]) else None))
    case Replaying(_, rest) => if rest == [] then None else Some(CandidateArrived(rest[0]))
    case Done => None
  }

  // Where the coroutine then suspends. A closed session takes the rest of a replay at once.
  function NextTask(t: Task, s: Session, parked: seq<string>): Task {
    match t
    case Offering(_) => Done
    case ApplyingAnswer(who, _) => if s.ice.pending != [] then Flushing(who, 1, false, false) else Done
    case ApplyingOffer(who, _, first) =>
      if s.ice.pending != [] then Flushing(who, 1, true, first) else Answering(who, first)
    case Flushing(who, next, answering, first) =>
      if next < |s.ice.pending| then Flushing(who, next + 1, answering, first)
      else if answering then Answering(who, first) else Done
    case Answering(who, first) => if first && parked != [] then Replaying(who, parked[1..]) else Done
    case Replaying(who, rest) => if rest == [] || s.phase == CLOSED then Done else Replaying(who, rest[1..])
    case Done => Done
  }

  function ResumeTask(m: Manager, i: nat, sdp: string): Manager
    requires WellFormed(m) && i < |m.tasks|
  {
    var t := m.tasks[i];
    if t.Done? then m
    else
      var s := m.sessions[t.who];
      var m1 := SetTask(m, i, NextTask(t, s, Parked(m, s.id)));
      var m2 := match EventOf(t, sdp, Parked(m, s.id)) case None => m1 case Some(e) => Apply(m1, t.who, e);
      if t.Answering? && t.first then m2.(parked := m2.parked - {s.id}) else m2
  }

  predicate IsExternal(e: Event) { e.ChannelsOpen? || e.TransportState? || e.Timeout? || e.Close? }

  function MStep(m: Manager, e: MEvent): Manager
    requires WellFormed(m)
  {
    match e
    case Connect(id) => Spawn(Create(m, id, true), Offering(|m.sessions|))
    case Receive(text) => HandleSignal(m, text)
    case Resume(i, sdp) => if i < |m.tasks| then ResumeTask(m, i, sdp) else m
    case External(who, e) => if who < |m.sessions| && IsExternal(e) then Apply(m, who, e) else m
  }

  lemma ApplyWellFormed(m: Manager, who: nat, e: Event)
    requires WellFormed(m) && who < |m.sessions|
    ensures WellFormed(Apply(m, who, e)) && Apply(m, who, e).tasks == m.tasks
  {
  }

  lemma DispatchWellFormed(m: Manager, who: nat, message: S.Message, first: bool)
    requires WellFormed(m) && who < |m.sessions|
    ensures WellFormed(Dispatch(m, who, message, first))
  {
    match message {
      case ConnectResponse(_, _) => ApplyWellFormed(m, who, AnswerArrived);
      case ConnectError(_, error) => ApplyWellFormed(m, who, ErrorArrived(error));
      case CandidateAdd(_, candidate) => ApplyWellFormed(m, who, CandidateArrived(candidate));
      case _ =>
    }
  }

  lemma CreateWellFormed(m: Manager, id: nat, isDialer: bool)
    requires WellFormed(m)
    ensures WellFormed(Create(m, id, isDialer))
  {
  }

  lemma ResumeWellFormed(m: Manager, i: nat, sdp: string)
    requires WellFormed(m) && i < |m.tasks|
    ensures WellFormed(ResumeTask(m, i, sdp))
  {
    var t := m.tasks[i];
    if !t.Done? {
      var s := m.sessions[t.who];
      var m1 := SetTask(m, i, NextTask(t, s, Parked(m, s.id)));
      assert WellFormed(m1);
      var e := EventOf(t, sdp, Parked(m, s.id));
      if e.Some? {
        ApplyWellFormed(m1, t.who, e.value);
      }
    }
  }

  // What a resumed coroutine that runs a session event leaves behind.
  lemma ResumeRuns(m: Manager, i: nat, sdp: string, e: Event)
    requires WellFormed(m) && i < |m.tasks| && !m.tasks[i].Done?
    requires var t := m.tasks[i]; EventOf(t, sdp, Parked(m, m.sessions[t.who].id)) == Some(e)
    ensures WellFormed(ResumeTask(m, i, sdp))
    ensures var t := m.tasks[i];
            var s := m.sessions[t.who];
            var parked := Parked(m, s.id);
            ResumeTask(m, i, sdp)
            == Manager(m.routes, if t.Answering? && t.first then m.parked - {s.id} else m.parked,
                         m.sessions[t.who := Step(s, e)], m.tasks[i := NextTask(t, s, parked)])
  {
    ResumeWellFormed(m, i, sdp);
  }

  lemma MStepWellFormed(m: Manager, e: MEvent)
    requires WellFormed(m)
    ensures WellFormed(MStep(m, e))
  {
    match e {
      case Connect(id) => CreateWellFormed(m, id, true);
      case Receive(text) =>
        if S.Parse(text).Some? {
          var message := S.Parse(text).value;
          if message.id in m.routes {
            DispatchWellFormed(m, m.routes[message.id], message, false);
          } else if message.ConnectRequest? {
            CreateWellFormed(m, message.id, false);
            DispatchWellFormed(Create(m, message.id, false), |m.sessions|, message, true);
          }
        }
      case Resume(i, sdp) =>
        if i < |m.tasks| {
          ResumeWellFormed(m, i, sdp);
        }
      case External(who, e) =>
        if who < |m.sessions| && IsExternal(e) {
          ApplyWellFormed(m, who, e);
        }
    }
  }

  // The state after a sequence of events, starting from any state.
  function MRun(m: Manager, events: seq<MEvent>): (r: Manager)
    requires WellFormed(m)
    ensures WellFormed(r)
  {
    if events == [] then m
    else
      var before := MRun(m, events[..|events| - 1]);
      MStepWellFormed(before, events[|events| - 1]);
      MStep(before, events[|events| - 1])
  }
}
