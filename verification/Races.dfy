// Runs, given as the texts received and the coroutines resumed, in which something happens while
// a coroutine is suspended that its code does not expect.
module Races {
  import opened Basics
  import E = SdpEdits
  import P = PeerConnections
  import S = Signaling
  import opened Sessions
  import opened Managers
  import opened Conservation
  import opened Arrivals

  // ---- single steps ----

  lemma {:induction false} RunConcat(m: Manager, a: seq<MEvent>, b: seq<MEvent>)
    requires WellFormed(m)
    ensures MRun(m, a + b) == MRun(MRun(m, a), b)
  {
    if b == [] {
      assert a + b == a;
    } else {
      assert (a + b)[..|a + b| - 1] == a + b[..|b| - 1];
      RunConcat(m, a, b[..|b| - 1]);
    }
  }

  lemma RunOne(m: Manager, e: MEvent)
    requires WellFormed(m)
    ensures MRun(m, [e]) == MStep(m, e)
  {
    assert [e][..0] == [];
  }

  // From one state to another.
  ghost predicate Leads(m: Manager, events: seq<MEvent>, after: Manager) {
    WellFormed(m) && WellFormed(after) && MRun(m, events) == after
  }

  lemma Then(m: Manager, a: seq<MEvent>, m1: Manager, b: seq<MEvent>, m2: Manager)
    requires Leads(m, a, m1) && Leads(m1, b, m2)
    ensures Leads(m, a + b, m2)
  {
    RunConcat(m, a, b);
  }

  // One stretch of code, as the run of one event.
  lemma RequestCreates(m: Manager, text: string, id: nat, offer: string)
    requires WellFormed(m) && id !in m.routes && S.Parse(text) == Some(S.ConnectRequest(id, offer))
    ensures var n := |m.sessions|;
            Leads(m, [Receive(text)],
                  Manager(m.routes[id := n], m.parked, m.sessions + [Fresh(id, false)],
                          m.tasks + [ApplyingOffer(n, offer, true)]))
  {
    RunOne(m, Receive(text));
  }

  lemma RequestJoins(m: Manager, text: string, id: nat, offer: string)
    requires WellFormed(m) && id in m.routes && S.Parse(text) == Some(S.ConnectRequest(id, offer))
    requires var s := m.sessions[m.routes[id]]; !s.isDialer && s.phase == IDLE
    ensures Leads(m, [Receive(text)], Spawn(m, ApplyingOffer(m.routes[id], offer, false)))
  {
    RunOne(m, Receive(text));
  }

  lemma ErrorCloses(m: Manager, text: string, id: nat, code: int, s: Session)
    requires WellFormed(m) && id in m.routes && S.Parse(text) == Some(S.ConnectError(id, code))
    requires m.sessions[m.routes[id]] == s && s.phase != CLOSED && s.id == id && code != UNICAST_DELIVERY_FAILED
    ensures Leads(m, [Receive(text)],
                  Manager(m.routes - {id}, m.parked, m.sessions[m.routes[id] := CloseWith(s, code, false)], m.tasks))
  {
    RunOne(m, Receive(text));
    assert Step(s, ErrorArrived(code)) == CloseWith(s, code, false);
  }

  lemma CandidateParks(m: Manager, text: string, id: nat, c: string)
    requires WellFormed(m) && id !in m.routes && id !in m.parked && S.Parse(text) == Some(S.CandidateAdd(id, c))
    ensures Leads(m, [Receive(text)], m.(parked := m.parked[id := [c]]))
  {
    RunOne(m, Receive(text));
    assert [] + [c] == [c];
  }

  lemma CandidateReaches(m: Manager, text: string, id: nat, c: string, s: Session)
    requires WellFormed(m) && id in m.routes && S.Parse(text) == Some(S.CandidateAdd(id, c))
    requires m.sessions[m.routes[id]] == s && s.phase != CLOSED
    ensures Leads(m, [Receive(text)],
                  m.(sessions := m.sessions[m.routes[id] := s.(ice := P.AddCandidate(s.ice, c))]))
  {
    RunOne(m, Receive(text));
    StepIce(s, CandidateArrived(c));
  }

  lemma Resumes(m: Manager, i: nat, sdp: string, e: Event)
    requires WellFormed(m) && i < |m.tasks| && !m.tasks[i].Done?
    requires var t := m.tasks[i]; EventOf(t, sdp, Parked(m, m.sessions[t.who].id)) == Some(e)
    ensures var t := m.tasks[i];
            var s := m.sessions[t.who];
            Leads(m, [Resume(i, sdp)],
                  Manager(m.routes, if t.Answering? && t.first then m.parked - {s.id} else m.parked,
                          m.sessions[t.who := Step(s, e)], m.tasks[i := NextTask(t, s, Parked(m, s.id))]))
  {
    RunOne(m, Resume(i, sdp));
    ResumeRuns(m, i, sdp, e);
  }

  lemma TimesOut(m: Manager, who: nat, code: int, s: Session)
    requires WellFormed(m) && who < |m.sessions| && m.sessions[who] == s && s.phase != CLOSED && s.timer == Some(code)
    ensures Leads(m, [External(who, Timeout)],
                  m.(sessions := m.sessions[who := CloseWith(s, code, false)], routes := m.routes - {s.id}))
  {
    RunOne(m, External(who, Timeout));
    assert Step(s, Timeout) == CloseWith(s, code, false);
  }

  // ---- a listener closed while its answer is being created ----

  function Described(id: nat, offer: string): Session {
    Fresh(id, false).(ice := P.Ice([offer], true, [], [], []))
  }

  function Shut(id: nat, offer: string, code: int): Session { CloseWith(Described(id, offer), code, false) }

  function ShutManager(id: nat, offer: string, code: int): Manager {
    Manager(map[], map[], [Shut(id, offer, code)], [Answering(0, true)])
  }

  function Request(id: nat, offer: string): MEvent { Receive(S.Serialize(S.ConnectRequest(id, offer))) }

  function Candidate(id: nat, c: string): MEvent { Receive(S.Serialize(S.CandidateAdd(id, c))) }

  function ShutEvents(id: nat, offer: string, code: int): seq<MEvent> {
    [Request(id, offer)] + [Resume(0, "")] + [Receive(S.Serialize(S.ConnectError(id, code)))]
  }

  lemma Describes(m: Manager, i: nat, who: nat, id: nat, offer: string, first: bool)
    requires WellFormed(m) && i < |m.tasks| && m.tasks[i] == ApplyingOffer(who, offer, first)
    requires m.sessions[who] == Fresh(id, false)
    ensures Leads(m, [Resume(i, "")],
                  m.(sessions := m.sessions[who := Described(id, offer)], tasks := m.tasks[i := Answering(who, first)]))
  {
    Resumes(m, i, "", Sessions.Described(offer));
    StepIce(Fresh(id, false), Sessions.Described(offer));
    assert Step(Fresh(id, false), Sessions.Described(offer)) == Described(id, offer);
  }

  lemma Created(request: string, id: nat, offer: string)
    requires S.Parse(request) == Some(S.ConnectRequest(id, offer))
    ensures Leads(NEW_MANAGER, [Receive(request)],
                  Manager(map[id := 0], map[], [Fresh(id, false)], [ApplyingOffer(0, offer, true)]))
  {
    RequestCreates(NEW_MANAGER, request, id, offer);
  }

  lemma AnswerIsCreated(request: string, id: nat, offer: string)
    requires S.Parse(request) == Some(S.ConnectRequest(id, offer))
    ensures Leads(NEW_MANAGER, [Receive(request)] + [Resume(0, "")],
                  Manager(map[id := 0], map[], [Described(id, offer)], [Answering(0, true)]))
  {
    var m1 := Manager(map[id := 0], map[], [Fresh(id, false)], [ApplyingOffer(0, offer, true)]);
    Created(request, id, offer);
    Describes(m1, 0, 0, id, offer, true);
    Then(NEW_MANAGER, [Receive(request)], m1, [Resume(0, "")],
         Manager(map[id := 0], map[], [Described(id, offer)], [Answering(0, true)]));
  }

  lemma ShutBy(events: seq<MEvent>, error: string, id: nat, offer: string, code: int)
    requires S.Parse(error) == Some(S.ConnectError(id, code)) && code != UNICAST_DELIVERY_FAILED
    requires Leads(NEW_MANAGER, events, Manager(map[id := 0], map[], [Described(id, offer)], [Answering(0, true)]))
    ensures Leads(NEW_MANAGER, events + [Receive(error)], ShutManager(id, offer, code))
  {
    var m := Manager(map[id := 0], map[], [Described(id, offer)], [Answering(0, true)]);
    ErrorCloses(m, error, id, code, Described(id, offer));
    Then(NEW_MANAGER, events, m, [Receive(error)], ShutManager(id, offer, code));
  }

  lemma ShutWhileAnswering(id: nat, offer: string, code: int)
    requires id <= U64_MAX && code != UNICAST_DELIVERY_FAILED
    ensures Leads(NEW_MANAGER, ShutEvents(id, offer, code), ShutManager(id, offer, code))
  {
    S.RoundTrip(S.ConnectRequest(id, offer));
    S.RoundTrip(S.ConnectError(id, code));
    AnswerIsCreated(S.Serialize(S.ConnectRequest(id, offer)), id, offer);
    ShutBy([Request(id, offer)] + [Resume(0, "")], S.Serialize(S.ConnectError(id, code)), id, offer, code);
  }

  // The session after its answer came, first or not, with the candidate replayed to it, if any.
  function Revived(id: nat, offer: string, code: int, answer: string, replay: Option<string>): Session {
    Step(Shut(id, offer, code), AnswerReady(answer, true, replay))
  }

  lemma RevivedShape(id: nat, offer: string, code: int, answer: string, replay: Option<string>)
    ensures var s := Revived(id, offer, code, answer, replay);
            && s.id == id && !s.isDialer && s.phase == ANSWER_SENT && s.timer == Some(WAITING_FOR_ACCEPT)
            && s.log == [Closed(code)] && S.ConnectResponse(id, E.WithoutCandidates(answer)) in s.sent
            && s.ice == if replay.Some? then P.AddCandidate(Described(id, offer).ice, replay.value)
                        else Described(id, offer).ice
  {
    var s := Revived(id, offer, code, answer, replay);
    assert s.sent == [] + [S.ConnectResponse(id, E.WithoutCandidates(answer))] + Trickle(id, E.Candidates(answer));
    assert s.sent[0] == S.ConnectResponse(id, E.WithoutCandidates(answer));
  }

  lemma SetFirst<T>(first: T, next: T, rest: seq<T>)
    ensures ([first] + rest)[0] == first && ([first] + rest)[0 := next] == [next] + rest
  {
  }

  // Nothing is parked: the answer is sent all the same.
  lemma Revives(
      id: nat, offer: string, code: int, answer: string, routes: map<nat, nat>, rest: seq<Session>, tasks: seq<Task>)
    requires WellFormed(Manager(routes, map[], [Shut(id, offer, code)] + rest, [Answering(0, true)] + tasks))
    ensures Leads(Manager(routes, map[], [Shut(id, offer, code)] + rest, [Answering(0, true)] + tasks),
                  [Resume(0, answer)],
                  Manager(routes, map[], [Revived(id, offer, code, answer, None)] + rest, [Done] + tasks))
  {
    var m := Manager(routes, map[], [Shut(id, offer, code)] + rest, [Answering(0, true)] + tasks);
    var s := Revived(id, offer, code, answer, None);
    SetFirst(Shut(id, offer, code), s, rest);
    SetFirst(Answering(0, true), Done, tasks);
    Resumes(m, 0, answer, AnswerReady(answer, true, None));
    assert m.parked - {id} == map[];
  }

  lemma ShutThenAnswered(id: nat, offer: string, code: int, answer: string)
    requires id <= U64_MAX && code != UNICAST_DELIVERY_FAILED
    ensures Leads(NEW_MANAGER, ShutEvents(id, offer, code) + [Resume(0, answer)],
                  Manager(map[], map[], [Revived(id, offer, code, answer, None)], [Done]))
  {
    var m0, s := ShutManager(id, offer, code), Revived(id, offer, code, answer, None);
    ShutWhileAnswering(id, offer, code);
    assert m0.sessions == [Shut(id, offer, code)] + [] && m0.tasks == [Answering(0, true)] + [];
    Revives(id, offer, code, answer, map[], [], []);
    assert [s] + [] == [s] && [Done] + [] == [Done];
    Then(NEW_MANAGER, ShutEvents(id, offer, code), m0, [Resume(0, answer)], Manager(map[], map[], [s], [Done]));
  }

  lemma AnsweredThenTimedOut(events: seq<MEvent>, m: Manager, s: Session)
    requires m == Manager(map[], map[], [s], [Done]) && s.phase != CLOSED && s.timer == Some(WAITING_FOR_ACCEPT)
    requires Leads(NEW_MANAGER, events, m)
    ensures Leads(NEW_MANAGER, events + [External(0, Timeout)],
                  Manager(map[], map[], [CloseWith(s, WAITING_FOR_ACCEPT, false)], [Done]))
  {
    TimesOut(m, 0, WAITING_FOR_ACCEPT, s);
    Then(NEW_MANAGER, events, m, [External(0, Timeout)],
         Manager(map[], map[], [CloseWith(s, WAITING_FOR_ACCEPT, false)], [Done]));
  }

  // A remote error closes a listener whose answer is being created. The answer is sent all the
  // same and the session waits again, although it was reported closed; its timeout then closes it
  // a second time.
  lemma CloseInWindowIsUndone(id: nat, offer: string, code: int, answer: string)
    requires id <= U64_MAX && code != UNICAST_DELIVERY_FAILED
    ensures var events := ShutEvents(id, offer, code) + [Resume(0, answer)];
            var m, m1 := MRun(NEW_MANAGER, events), MRun(NEW_MANAGER, events + [External(0, Timeout)]);
            && |m.sessions| == |m1.sessions| == 1
            && m.sessions[0].phase == ANSWER_SENT && m.sessions[0].log == [Closed(code)]
            && S.ConnectResponse(id, E.WithoutCandidates(answer)) in m.sessions[0].sent
            && m1.sessions[0].log == [Closed(code), Closed(WAITING_FOR_ACCEPT)]
  {
    var s := Revived(id, offer, code, answer, None);
    ShutThenAnswered(id, offer, code, answer);
    RevivedShape(id, offer, code, answer, None);
    AnsweredThenTimedOut(ShutEvents(id, offer, code) + [Resume(0, answer)], Manager(map[], map[], [s], [Done]), s);
  }

  // ---- the id is used again while that answer is being created ----

  function ReusedEvents(id: nat, offer: string, code: int, c: string): seq<MEvent> {
    ShutEvents(id, offer, code) + [Candidate(id, c)] + [Request(id, offer)]
  }

  // A candidate was parked after the close, and the request came again.
  function Reused(id: nat, offer: string, code: int, c: string): Manager {
    Manager(map[id := 1], map[id := [c]], [Shut(id, offer, code), Fresh(id, false)],
            [Answering(0, true), ApplyingOffer(1, offer, true)])
  }

  lemma IdIsReused(id: nat, offer: string, code: int, c: string)
    requires id <= U64_MAX && code != UNICAST_DELIVERY_FAILED
    ensures Leads(NEW_MANAGER, ReusedEvents(id, offer, code, c), Reused(id, offer, code, c))
  {
    S.RoundTrip(S.ConnectRequest(id, offer));
    S.RoundTrip(S.CandidateAdd(id, c));
    ShutWhileAnswering(id, offer, code);
    ParkedThen(ShutEvents(id, offer, code), S.Serialize(S.CandidateAdd(id, c)), id, offer, code, c);
    ReusedFrom(ShutEvents(id, offer, code) + [Candidate(id, c)], S.Serialize(S.ConnectRequest(id, offer)),
               id, offer, code, c);
  }

  lemma ParkedThen(events: seq<MEvent>, candidate: string, id: nat, offer: string, code: int, c: string)
    requires S.Parse(candidate) == Some(S.CandidateAdd(id, c))
    requires Leads(NEW_MANAGER, events, ShutManager(id, offer, code))
    ensures Leads(NEW_MANAGER, events + [Receive(candidate)], ShutManager(id, offer, code).(parked := map[id := [c]]))
  {
    var m := ShutManager(id, offer, code);
    CandidateParks(m, candidate, id, c);
    Then(NEW_MANAGER, events, m, [Receive(candidate)], m.(parked := map[id := [c]]));
  }

  lemma ReusedFrom(events: seq<MEvent>, request: string, id: nat, offer: string, code: int, c: string)
    requires S.Parse(request) == Some(S.ConnectRequest(id, offer))
    requires Leads(NEW_MANAGER, events, ShutManager(id, offer, code).(parked := map[id := [c]]))
    ensures Leads(NEW_MANAGER, events + [Receive(request)], Reused(id, offer, code, c))
  {
    var m := ShutManager(id, offer, code).(parked := map[id := [c]]);
    RequestCreates(m, request, id, offer);
    Then(NEW_MANAGER, events, m, [Receive(request)], Reused(id, offer, code, c));
  }

  // The first handler's answer takes the list: the candidate goes to the session it created.
  function Stolen(id: nat, offer: string, code: int, c: string, answer: string, tasks: seq<Task>): Manager {
    Manager(map[id := 1], map[], [Revived(id, offer, code, answer, Some(c)), Fresh(id, false)],
            [Replaying(0, [])] + tasks)
  }

  lemma Steals(id: nat, offer: string, code: int, c: string, answer: string, tasks: seq<Task>)
    requires WellFormed(Reused(id, offer, code, c).(tasks := [Answering(0, true)] + tasks))
    ensures Leads(Reused(id, offer, code, c).(tasks := [Answering(0, true)] + tasks), [Resume(0, answer)],
                  Stolen(id, offer, code, c, answer, tasks))
  {
    var m := Reused(id, offer, code, c).(tasks := [Answering(0, true)] + tasks);
    Resumes(m, 0, answer, AnswerReady(answer, true, Some(c)));
    SetFirst(Answering(0, true), Replaying(0, []), tasks);
    assert [c][1..] == [] && m.parked - {id} == map[];
  }

  lemma ReusedThenStolen(id: nat, offer: string, code: int, c: string, answer: string)
    requires id <= U64_MAX && code != UNICAST_DELIVERY_FAILED
    ensures Leads(NEW_MANAGER, ReusedEvents(id, offer, code, c) + [Resume(0, answer)],
                  Stolen(id, offer, code, c, answer, [ApplyingOffer(1, offer, true)]))
  {
    var m := Reused(id, offer, code, c);
    IdIsReused(id, offer, code, c);
    assert m.tasks == [Answering(0, true)] + [ApplyingOffer(1, offer, true)];
    Steals(id, offer, code, c, answer, [ApplyingOffer(1, offer, true)]);
    Then(NEW_MANAGER, ReusedEvents(id, offer, code, c), m, [Resume(0, answer)],
         Stolen(id, offer, code, c, answer, [ApplyingOffer(1, offer, true)]));
  }

  // The closed session, waiting again, times out and takes the id off the map: the session that
  // has the id now is alive and gets no signal any more.
  lemma SuccessorIsUnmapped(id: nat, offer: string, code: int, c: string, answer: string)
    requires id <= U64_MAX && code != UNICAST_DELIVERY_FAILED
    ensures var m := MRun(NEW_MANAGER, ReusedEvents(id, offer, code, c) + [Resume(0, answer)] + [External(0, Timeout)]);
            |m.sessions| == 2 && m.sessions[1] == Fresh(id, false) && id !in m.routes
  {
    var m := Stolen(id, offer, code, c, answer, [ApplyingOffer(1, offer, true)]);
    ReusedThenStolen(id, offer, code, c, answer);
    RevivedShape(id, offer, code, answer, Some(c));
    TimesOut(m, 0, WAITING_FOR_ACCEPT, m.sessions[0]);
    Then(NEW_MANAGER, ReusedEvents(id, offer, code, c) + [Resume(0, answer)], m, [External(0, Timeout)],
         m.(sessions := m.sessions[0 := CloseWith(m.sessions[0], WAITING_FOR_ACCEPT, false)],
            routes := m.routes - {id}));
  }

  // The second session answers: it never gets the candidate.
  function Answered(id: nat, offer: string, answer: string): Session {
    Step(Described(id, offer), AnswerReady(answer, true, None))
  }

  lemma SecondAnswers(routes: map<nat, nat>, r: Session, id: nat, offer: string, later: string)
    requires WellFormed(Manager(routes, map[], [r, Described(id, offer)], [Replaying(0, []), Answering(1, true)]))
    ensures Leads(Manager(routes, map[], [r, Described(id, offer)], [Replaying(0, []), Answering(1, true)]),
                  [Resume(1, later)],
                  Manager(routes, map[], [r, Answered(id, offer, later)], [Replaying(0, []), Done]))
  {
    var m := Manager(routes, map[], [r, Described(id, offer)], [Replaying(0, []), Answering(1, true)]);
    var s := Answered(id, offer, later);
    Resumes(m, 1, later, AnswerReady(later, true, None));
    assert m.parked - {id} == map[] && m.sessions[1 := s] == [r, s];
    assert m.tasks[1 := Done] == [Replaying(0, []), Done];
  }

  lemma SecondDescribes(routes: map<nat, nat>, r: Session, id: nat, offer: string)
    requires WellFormed(Manager(routes, map[], [r, Fresh(id, false)],
                                [Replaying(0, []), ApplyingOffer(1, offer, true)]))
    ensures Leads(Manager(routes, map[], [r, Fresh(id, false)], [Replaying(0, []), ApplyingOffer(1, offer, true)]),
                  [Resume(1, "")],
                  Manager(routes, map[], [r, Described(id, offer)], [Replaying(0, []), Answering(1, true)]))
  {
    var m := Manager(routes, map[], [r, Fresh(id, false)], [Replaying(0, []), ApplyingOffer(1, offer, true)]);
    Describes(m, 1, 1, id, offer, true);
    assert m.sessions[1 := Described(id, offer)] == [r, Described(id, offer)];
    assert m.tasks[1 := Answering(1, true)] == [Replaying(0, []), Answering(1, true)];
  }

  function TheftManager(id: nat, offer: string, code: int, c: string, answer: string, later: string): Manager {
    Manager(map[id := 1], map[], [Revived(id, offer, code, answer, Some(c)), Answered(id, offer, later)],
            [Replaying(0, []), Done])
  }

  lemma StolenThenAnswered(id: nat, offer: string, code: int, c: string, answer: string, later: string)
    requires id <= U64_MAX && code != UNICAST_DELIVERY_FAILED
    ensures Leads(NEW_MANAGER, TheftEvents(id, offer, code, c, answer, later),
                  TheftManager(id, offer, code, c, answer, later))
  {
    var r := Revived(id, offer, code, answer, Some(c));
    var m := Stolen(id, offer, code, c, answer, [ApplyingOffer(1, offer, true)]);
    var m1 := Manager(map[id := 1], map[], [r, Described(id, offer)], [Replaying(0, []), Answering(1, true)]);
    RevivedShape(id, offer, code, answer, Some(c));
    ReusedThenStolen(id, offer, code, c, answer);
    assert m.tasks == [Replaying(0, []), ApplyingOffer(1, offer, true)];
    SecondDescribes(map[id := 1], r, id, offer);
    var events := ReusedEvents(id, offer, code, c) + [Resume(0, answer)];
    Then(NEW_MANAGER, events, m, [Resume(1, "")], m1);
    SecondAnswers(map[id := 1], r, id, offer, later);
    Then(NEW_MANAGER, events + [Resume(1, "")], m1, [Resume(1, later)],
         TheftManager(id, offer, code, c, answer, later));
  }

  function TheftEvents(id: nat, offer: string, code: int, c: string, answer: string, later: string): seq<MEvent> {
    ReusedEvents(id, offer, code, c) + [Resume(0, answer)] + [Resume(1, "")] + [Resume(1, later)]
  }

  lemma HeardNext(id: nat, events: seq<MEvent>, n: nat, e: MEvent)
    requires n <= |events|
    ensures HeardFrom(id, events + [e], n) == HeardFrom(id, events, n) + HeardIn(id, e)
  {
    assert (events + [e])[..|events|] == events;
  }

  function ParkedEvents(id: nat, offer: string, code: int, c: string): seq<MEvent> {
    ShutEvents(id, offer, code) + [Candidate(id, c)]
  }

  // What the second session is owed: the candidate parked before its request.
  lemma CandidateIsParked(id: nat, offer: string, code: int, c: string)
    requires id <= U64_MAX && code != UNICAST_DELIVERY_FAILED
    ensures Leads(NEW_MANAGER, ParkedEvents(id, offer, code, c),
                  ShutManager(id, offer, code).(parked := map[id := [c]]))
  {
    S.RoundTrip(S.CandidateAdd(id, c));
    ShutWhileAnswering(id, offer, code);
    ParkedThen(ShutEvents(id, offer, code), S.Serialize(S.CandidateAdd(id, c)), id, offer, code, c);
  }

  lemma OwesFirst(id: nat, start: seq<MEvent>, request: MEvent, c: string)
    requires Parked(MRun(NEW_MANAGER, start), id) == [c] && HeardIn(id, request) == []
    ensures Owes(id, start + [request], start, request, [c])
  {
    ParkedAreFirst64(start, id);
    HeardNext(id, start, |start|, request);
    assert [c] + ([] + []) == [c];
  }

  lemma ReusedOwes(id: nat, offer: string, code: int, c: string)
    requires id <= U64_MAX && code != UNICAST_DELIVERY_FAILED
    ensures Owes(id, ReusedEvents(id, offer, code, c), ParkedEvents(id, offer, code, c), Request(id, offer), [c])
  {
    HeardInTexts(id, offer, c);
    CandidateIsParked(id, offer, code, c);
    OwesFirst(id, ParkedEvents(id, offer, code, c), Request(id, offer), c);
  }

  // The request after these events creates the session.
  lemma SecondIsCreated(id: nat, events: seq<MEvent>, offer: string, code: int, c: string, texts: seq<string>)
    requires id <= U64_MAX && code != UNICAST_DELIVERY_FAILED
    requires Owes(id, events, ParkedEvents(id, offer, code, c), Request(id, offer), texts)
    ensures |events| > 4 && CreatedBy(events, 4, id) && Owed(id, events, 4) == texts
    ensures |MRun(NEW_MANAGER, events[..4]).sessions| == 1
  {
    CandidateIsParked(id, offer, code, c);
    S.RoundTrip(S.ConnectRequest(id, offer));
  }

  // The events start with these and then the request; the session it creates is owed the texts.
  predicate Owes(id: nat, events: seq<MEvent>, start: seq<MEvent>, request: MEvent, texts: seq<string>) {
    && |start| < |events| && events[..|start|] == start && events[|start|] == request
    && First64(Unclaimed(id, start)) + HeardFrom(id, events, |start|) == texts
  }

  // An event later the session is owed what was heard besides.
  lemma OwesNext(
      id: nat, events: seq<MEvent>, start: seq<MEvent>, request: MEvent, texts: seq<string>, e: MEvent,
      heard: seq<string>)
    requires Owes(id, events, start, request, texts) && HeardIn(id, e) == heard
    ensures Owes(id, events + [e], start, request, texts + heard)
  {
    HeardNext(id, events, |start|, e);
    Append(events, e, |start|);
    assert First64(Unclaimed(id, start)) + HeardFrom(id, events, |start|) + heard
           == First64(Unclaimed(id, start)) + (HeardFrom(id, events, |start|) + heard);
  }

  lemma Append(events: seq<MEvent>, e: MEvent, n: nat)
    requires n < |events|
    ensures (events + [e])[..n] == events[..n] && (events + [e])[n] == events[n]
  {
  }

  lemma TheftShape(id: nat, offer: string, code: int, c: string, answer: string, later: string)
    ensures var m := TheftManager(id, offer, code, c, answer, later);
            && Settled(m, 1) && m.sessions[1].phase == ANSWER_SENT
            && m.sessions[1].ice.remotes == [offer] && m.sessions[1].ice.applied == []
            && m.sessions[0].ice.applied == [P.CandidateValue(c)]
  {
    RevivedShape(id, offer, code, answer, Some(c));
    StepIce(Described(id, offer), AnswerReady(later, true, None));
  }

  lemma OwesAfterThree(
      id: nat, events: seq<MEvent>, start: seq<MEvent>, request: MEvent, texts: seq<string>,
      a: MEvent, b: MEvent, c: MEvent)
    requires Owes(id, events, start, request, texts) && a.Resume? && b.Resume? && c.Resume?
    ensures Owes(id, events + [a] + [b] + [c], start, request, texts)
  {
    assert texts + [] == texts;
    OwesNext(id, events, start, request, texts, a, []);
    OwesNext(id, events + [a], start, request, texts, b, []);
    OwesNext(id, events + [a] + [b], start, request, texts, c, []);
  }

  lemma TheftOwes(id: nat, offer: string, code: int, c: string, answer: string, later: string)
    requires id <= U64_MAX && code != UNICAST_DELIVERY_FAILED
    ensures Owes(id, TheftEvents(id, offer, code, c, answer, later), ParkedEvents(id, offer, code, c),
                 Request(id, offer), [c])
  {
    ReusedOwes(id, offer, code, c);
    OwesAfterThree(id, ReusedEvents(id, offer, code, c), ParkedEvents(id, offer, code, c), Request(id, offer), [c],
                   Resume(0, answer), Resume(1, ""), Resume(1, later));
  }

  // A request repeated after a close, while the first answer is still being created: the first
  // handler takes the candidate parked for the new session. That session has its id, its offer
  // applied, its answer sent and no coroutine left, and never gets the candidate it is owed.
  lemma ParkedCandidateIsStolen(id: nat, offer: string, code: int, c: string, answer: string, later: string)
    requires id <= U64_MAX && code != UNICAST_DELIVERY_FAILED
    ensures var events := TheftEvents(id, offer, code, c, answer, later);
            var m := MRun(NEW_MANAGER, events);
            && |events| > 4 && CreatedBy(events, 4, id) && Owed(id, events, 4) == [c]
            && |m.sessions| == 2 && id in m.routes && m.routes[id] == |MRun(NEW_MANAGER, events[..4]).sessions| == 1
            && Settled(m, 1) && m.sessions[1].phase == ANSWER_SENT
            && m.sessions[1].ice.remotes == [offer] && m.sessions[1].ice.applied == []
            && m.sessions[0].ice.applied == [P.CandidateValue(c)]
  {
    TheftOwes(id, offer, code, c, answer, later);
    StolenThenAnswered(id, offer, code, c, answer, later);
    StolenFacts(TheftEvents(id, offer, code, c, answer, later), id, offer, code, c, answer, later);
  }

  lemma StolenFacts(events: seq<MEvent>, id: nat, offer: string, code: int, c: string, answer: string, later: string)
    requires id <= U64_MAX && code != UNICAST_DELIVERY_FAILED
    requires Owes(id, events, ParkedEvents(id, offer, code, c), Request(id, offer), [c])
    requires Leads(NEW_MANAGER, events, TheftManager(id, offer, code, c, answer, later))
    ensures var m := MRun(NEW_MANAGER, events);
            && |events| > 4 && CreatedBy(events, 4, id) && Owed(id, events, 4) == [c]
            && |m.sessions| == 2 && id in m.routes && m.routes[id] == |MRun(NEW_MANAGER, events[..4]).sessions| == 1
            && Settled(m, 1) && m.sessions[1].phase == ANSWER_SENT
            && m.sessions[1].ice.remotes == [offer] && m.sessions[1].ice.applied == []
            && m.sessions[0].ice.applied == [P.CandidateValue(c)]
  {
    SecondIsCreated(id, events, offer, code, c, [c]);
    TheftShape(id, offer, code, c, answer, later);
  }

  // ---- a theft and an overlap that make up for each other ----

  // Session 1 of a manager whose first session is r, with these candidate books and coroutines.
  function Second(id: nat, r: Session, s: Session, first: Task, second: Task): Manager {
    Manager(map[id := 1], map[], [r, s], [Replaying(0, []), first, second])
  }

  lemma SecondResumes(id: nat, r: Session, s: Session, first: Task, second: Task, i: nat, sdp: string, e: Event)
    requires WellFormed(Second(id, r, s, first, second)) && (i == 1 || i == 2)
    requires var t := if i == 1 then first else second;
             !t.Done? && t.who == 1 && s.id == id && EventOf(t, sdp, []) == Some(e)
    ensures var t := if i == 1 then first else second;
            var next := NextTask(t, s, []);
            Leads(Second(id, r, s, first, second), [Resume(i, sdp)],
                  Second(id, r, Step(s, e), if i == 1 then next else first, if i == 1 then second else next))
  {
    var m := Second(id, r, s, first, second);
    var next := NextTask(if i == 1 then first else second, s, []);
    Resumes(m, i, sdp, e);
    assert m.parked - {id} == map[] && m.sessions[1 := Step(s, e)] == [r, Step(s, e)];
    assert m.tasks[1 := next] == [Replaying(0, []), next, second];
    assert m.tasks[2 := next] == [Replaying(0, []), first, next];
  }

  // Session 1 with a candidate that waits, and with the same candidate applied twice.
  function Holding(id: nat, v: string): Session { Fresh(id, false).(ice := P.Ice([], false, [v], [], [v])) }

  function Once(id: nat, offer: string, v: string): Session {
    Fresh(id, false).(ice := P.Ice([offer], true, [v], [v], [v]))
  }

  function Again(id: nat, offer: string, v: string, pending: seq<string>): Session {
    Fresh(id, false).(ice := P.Ice([offer, offer], true, pending, [v, v], [v]))
  }

  lemma HoldingSteps(id: nat, offer: string, v: string)
    ensures Step(Holding(id, v), Sessions.Described(offer)) == Once(id, offer, v)
    ensures Step(Once(id, offer, v), Sessions.Described(offer)) == Again(id, offer, v, [v])
    ensures Step(Again(id, offer, v, [v]), Flush(1)) == Again(id, offer, v, [])
    ensures Step(Again(id, offer, v, []), Flush(1)) == Again(id, offer, v, [])
  {
    assert [] + [offer] == [offer] && [offer] + [offer] == [offer, offer];
    assert [] + [v] == [v] && [v] + [v] == [v, v];
  }

  lemma DoubledFrom(events: seq<MEvent>, id: nat, offer: string, v: string, r: Session)
    requires r.id == id && !r.isDialer
    requires Leads(NEW_MANAGER, events,
                   Second(id, r, Holding(id, v), ApplyingOffer(1, offer, true), ApplyingOffer(1, offer, false)))
    ensures Leads(NEW_MANAGER, events + [Resume(1, "")] + [Resume(2, "")],
                  Second(id, r, Again(id, offer, v, [v]), Flushing(1, 1, true, true), Flushing(1, 1, true, false)))
  {
    HoldingSteps(id, offer, v);
    var m0 := Second(id, r, Holding(id, v), ApplyingOffer(1, offer, true), ApplyingOffer(1, offer, false));
    var m1 := Second(id, r, Once(id, offer, v), Flushing(1, 1, true, true), ApplyingOffer(1, offer, false));
    SecondResumes(id, r, Holding(id, v), m0.tasks[1], m0.tasks[2], 1, "", Sessions.Described(offer));
    Then(NEW_MANAGER, events, m0, [Resume(1, "")], m1);
    SecondResumes(id, r, Once(id, offer, v), m1.tasks[1], m1.tasks[2], 2, "", Sessions.Described(offer));
    Then(NEW_MANAGER, events + [Resume(1, "")], m1, [Resume(2, "")],
         Second(id, r, Again(id, offer, v, [v]), Flushing(1, 1, true, true), Flushing(1, 1, true, false)));
  }

  lemma FlushedFrom(events: seq<MEvent>, id: nat, offer: string, v: string, r: Session)
    requires r.id == id && !r.isDialer
    requires Leads(NEW_MANAGER, events,
                   Second(id, r, Again(id, offer, v, [v]), Flushing(1, 1, true, true), Flushing(1, 1, true, false)))
    ensures Leads(NEW_MANAGER, events + [Resume(1, "")] + [Resume(2, "")],
                  Second(id, r, Again(id, offer, v, []), Answering(1, true), Answering(1, false)))
  {
    HoldingSteps(id, offer, v);
    var m0 := Second(id, r, Again(id, offer, v, [v]), Flushing(1, 1, true, true), Flushing(1, 1, true, false));
    var m1 := Second(id, r, Again(id, offer, v, []), Answering(1, true), Flushing(1, 1, true, false));
    SecondResumes(id, r, Again(id, offer, v, [v]), m0.tasks[1], m0.tasks[2], 1, "", Flush(1));
    Then(NEW_MANAGER, events, m0, [Resume(1, "")], m1);
    SecondResumes(id, r, Again(id, offer, v, []), m1.tasks[1], m1.tasks[2], 2, "", Flush(1));
    Then(NEW_MANAGER, events + [Resume(1, "")], m1, [Resume(2, "")],
         Second(id, r, Again(id, offer, v, []), Answering(1, true), Answering(1, false)));
  }

  lemma SettledFrom(events: seq<MEvent>, id: nat, r: Session, s: Session, later: string)
    requires r.id == id && !r.isDialer && s.id == id && !s.isDialer
    requires Leads(NEW_MANAGER, events, Second(id, r, s, Answering(1, true), Answering(1, false)))
    ensures var e := AnswerReady(later, true, None);
            Leads(NEW_MANAGER, events + [Resume(1, later)] + [Resume(2, later)],
                  Second(id, r, Step(Step(s, e), e), Done, Done))
  {
    var e := AnswerReady(later, true, None);
    var s1 := Step(s, e);
    StepKeepsIdentity(s, e);
    var m0 := Second(id, r, s, Answering(1, true), Answering(1, false));
    var m1 := Second(id, r, s1, Done, Answering(1, false));
    SecondResumes(id, r, s, Answering(1, true), Answering(1, false), 1, later, e);
    Then(NEW_MANAGER, events, m0, [Resume(1, later)], m1);
    SecondResumes(id, r, s1, Done, Answering(1, false), 2, later, e);
    Then(NEW_MANAGER, events + [Resume(1, later)], m1, [Resume(2, later)], Second(id, r, Step(s1, e), Done, Done));
  }

  // The request comes a third time, the list is taken, and the candidate is heard again.
  function HoldingEvents(id: nat, offer: string, code: int, c: string, answer: string): seq<MEvent> {
    ReusedEvents(id, offer, code, c) + [Request(id, offer)] + [Resume(0, answer)] + [Candidate(id, c)]
  }

  function CancelEvents(id: nat, offer: string, code: int, c: string, answer: string, later: string): seq<MEvent> {
    HoldingEvents(id, offer, code, c, answer) + [Resume(1, "")] + [Resume(2, "")] + [Resume(1, "")] + [Resume(2, "")]
    + [Resume(1, later)] + [Resume(2, later)]
  }

  lemma JoinedFrom(events: seq<MEvent>, request: string, id: nat, offer: string, code: int, c: string)
    requires S.Parse(request) == Some(S.ConnectRequest(id, offer))
    requires Leads(NEW_MANAGER, events, Reused(id, offer, code, c))
    ensures Leads(NEW_MANAGER, events + [Receive(request)],
                  Reused(id, offer, code, c).(
                    tasks := [Answering(0, true)] + [ApplyingOffer(1, offer, true), ApplyingOffer(1, offer, false)]))
  {
    var m := Reused(id, offer, code, c);
    RequestJoins(m, request, id, offer);
    Then(NEW_MANAGER, events, m, [Receive(request)], Spawn(m, ApplyingOffer(1, offer, false)));
    assert Spawn(m, ApplyingOffer(1, offer, false)).tasks
           == [Answering(0, true)] + [ApplyingOffer(1, offer, true), ApplyingOffer(1, offer, false)];
  }

  lemma StolenFrom(events: seq<MEvent>, id: nat, offer: string, code: int, c: string, answer: string, tasks: seq<Task>)
    requires Leads(NEW_MANAGER, events, Reused(id, offer, code, c).(tasks := [Answering(0, true)] + tasks))
    ensures Leads(NEW_MANAGER, events + [Resume(0, answer)], Stolen(id, offer, code, c, answer, tasks))
  {
    Steals(id, offer, code, c, answer, tasks);
    Then(NEW_MANAGER, events, Reused(id, offer, code, c).(tasks := [Answering(0, true)] + tasks), [Resume(0, answer)],
         Stolen(id, offer, code, c, answer, tasks));
  }

  lemma HeldFrom(events: seq<MEvent>, candidate: string, id: nat, r: Session, c: string, first: Task, second: Task)
    requires S.Parse(candidate) == Some(S.CandidateAdd(id, c))
    requires Leads(NEW_MANAGER, events, Second(id, r, Fresh(id, false), first, second))
    ensures Leads(NEW_MANAGER, events + [Receive(candidate)],
                  Second(id, r, Holding(id, P.CandidateValue(c)), first, second))
  {
    var m, v := Second(id, r, Fresh(id, false), first, second), P.CandidateValue(c);
    CandidateReaches(m, candidate, id, c, Fresh(id, false));
    assert P.AddCandidate(P.NEW_ICE, c) == P.Ice([], false, [v], [], [v]);
    Then(NEW_MANAGER, events, m, [Receive(candidate)], Second(id, r, Holding(id, v), first, second));
  }

  lemma StolenIsReached(id: nat, offer: string, code: int, c: string, answer: string)
    requires id <= U64_MAX && code != UNICAST_DELIVERY_FAILED
    ensures Leads(NEW_MANAGER, ReusedEvents(id, offer, code, c) + [Request(id, offer)] + [Resume(0, answer)],
                  Stolen(id, offer, code, c, answer, [ApplyingOffer(1, offer, true), ApplyingOffer(1, offer, false)]))
  {
    S.RoundTrip(S.ConnectRequest(id, offer));
    var reused := ReusedEvents(id, offer, code, c);
    IdIsReused(id, offer, code, c);
    JoinedFrom(reused, S.Serialize(S.ConnectRequest(id, offer)), id, offer, code, c);
    StolenFrom(reused + [Request(id, offer)], id, offer, code, c, answer,
               [ApplyingOffer(1, offer, true), ApplyingOffer(1, offer, false)]);
  }

  lemma HoldingIsReached(id: nat, offer: string, code: int, c: string, answer: string)
    requires id <= U64_MAX && code != UNICAST_DELIVERY_FAILED
    ensures Leads(NEW_MANAGER, HoldingEvents(id, offer, code, c, answer),
                  Second(id, Revived(id, offer, code, answer, Some(c)), Holding(id, P.CandidateValue(c)),
                         ApplyingOffer(1, offer, true), ApplyingOffer(1, offer, false)))
  {
    var r := Revived(id, offer, code, answer, Some(c));
    var first, second := ApplyingOffer(1, offer, true), ApplyingOffer(1, offer, false);
    S.RoundTrip(S.CandidateAdd(id, c));
    StolenIsReached(id, offer, code, c, answer);
    assert Stolen(id, offer, code, c, answer, [first, second]) == Second(id, r, Fresh(id, false), first, second);
    HeldFrom(ReusedEvents(id, offer, code, c) + [Request(id, offer)] + [Resume(0, answer)],
             S.Serialize(S.CandidateAdd(id, c)), id, r, c, first, second);
  }

  lemma CancelIsReached(id: nat, offer: string, code: int, c: string, answer: string, later: string)
    requires id <= U64_MAX && code != UNICAST_DELIVERY_FAILED
    ensures var e := AnswerReady(later, true, None);
            Leads(NEW_MANAGER, CancelEvents(id, offer, code, c, answer, later),
                  Second(id, Revived(id, offer, code, answer, Some(c)),
                         Step(Step(Again(id, offer, P.CandidateValue(c), []), e), e), Done, Done))
  {
    var v, r := P.CandidateValue(c), Revived(id, offer, code, answer, Some(c));
    var holding := HoldingEvents(id, offer, code, c, answer);
    RevivedShape(id, offer, code, answer, Some(c));
    HoldingIsReached(id, offer, code, c, answer);
    DoubledFrom(holding, id, offer, v, r);
    FlushedFrom(holding + [Resume(1, "")] + [Resume(2, "")], id, offer, v, r);
    SettledFrom(holding + [Resume(1, "")] + [Resume(2, "")] + [Resume(1, "")] + [Resume(2, "")], id, r,
                Again(id, offer, v, []), later);
  }

  lemma HoldingOwesFrom(
      id: nat, events: seq<MEvent>, start: seq<MEvent>, request: MEvent, candidate: MEvent, c: string, answer: string)
    requires Owes(id, events, start, request, [c]) && HeardIn(id, request) == [] && HeardIn(id, candidate) == [c]
    ensures Owes(id, events + [request] + [Resume(0, answer)] + [candidate], start, request, [c, c])
  {
    assert [c] + [] == [c] && [c] + [c] == [c, c];
    OwesNext(id, events, start, request, [c], request, []);
    OwesNext(id, events + [request], start, request, [c], Resume(0, answer), []);
    OwesNext(id, events + [request] + [Resume(0, answer)], start, request, [c], candidate, [c]);
  }

  lemma HeardInTexts(id: nat, offer: string, c: string)
    requires id <= U64_MAX
    ensures HeardIn(id, Request(id, offer)) == [] && HeardIn(id, Candidate(id, c)) == [c]
  {
    S.RoundTrip(S.ConnectRequest(id, offer));
    S.RoundTrip(S.CandidateAdd(id, c));
  }

  lemma HoldingOwes(id: nat, offer: string, code: int, c: string, answer: string)
    requires id <= U64_MAX && code != UNICAST_DELIVERY_FAILED
    ensures Owes(id, HoldingEvents(id, offer, code, c, answer), ParkedEvents(id, offer, code, c), Request(id, offer),
                 [c, c])
  {
    HeardInTexts(id, offer, c);
    ReusedOwes(id, offer, code, c);
    HoldingOwesFrom(id, ReusedEvents(id, offer, code, c), ParkedEvents(id, offer, code, c), Request(id, offer),
                    Candidate(id, c), c, answer);
  }

  // Two resumptions change nothing about it.
  lemma OwesAfterTwo(
      id: nat, events: seq<MEvent>, start: seq<MEvent>, request: MEvent, texts: seq<string>, sdp: string)
    requires Owes(id, events, start, request, texts)
    ensures Owes(id, events + [Resume(1, sdp)] + [Resume(2, sdp)], start, request, texts)
  {
    assert texts + [] == texts;
    OwesNext(id, events, start, request, texts, Resume(1, sdp), []);
    OwesNext(id, events + [Resume(1, sdp)], start, request, texts, Resume(2, sdp), []);
  }

  lemma CancelOwes(id: nat, offer: string, code: int, c: string, answer: string, later: string)
    requires id <= U64_MAX && code != UNICAST_DELIVERY_FAILED
    ensures Owes(id, CancelEvents(id, offer, code, c, answer, later), ParkedEvents(id, offer, code, c),
                 Request(id, offer), [c, c])
  {
    var start, request := ParkedEvents(id, offer, code, c), Request(id, offer);
    var holding := HoldingEvents(id, offer, code, c, answer);
    HoldingOwes(id, offer, code, c, answer);
    OwesAfterTwo(id, holding, start, request, [c, c], "");
    OwesAfterTwo(id, holding + [Resume(1, "")] + [Resume(2, "")], start, request, [c, c], "");
    OwesAfterTwo(id, holding + [Resume(1, "")] + [Resume(2, "")] + [Resume(1, "")] + [Resume(2, "")], start, request,
                 [c, c], later);
  }

  // Why the two conditions are needed side by side: here the list is taken and a candidate of the
  // same text is doubled, so what was applied is as a multiset what was owed, although one owed
  // candidate never arrived and the one that did was applied twice.
  lemma TheftAndOverlapCancel(id: nat, offer: string, code: int, c: string, answer: string, later: string)
    requires id <= U64_MAX && code != UNICAST_DELIVERY_FAILED
    ensures var events := CancelEvents(id, offer, code, c, answer, later);
            var m := MRun(NEW_MANAGER, events);
            && |events| > 4 && CreatedBy(events, 4, id) && |m.sessions| == 2 && Settled(m, 1)
            && id in m.routes && m.routes[id] == |MRun(NEW_MANAGER, events[..4]).sessions| == 1
            && multiset(m.sessions[1].ice.applied) == Bag(Owed(id, events, 4))
            && |m.sessions[1].ice.arrived| == 1
  {
    CancelOwes(id, offer, code, c, answer, later);
    SecondIsCreated(id, CancelEvents(id, offer, code, c, answer, later), offer, code, c, [c, c]);
    CancelIsReached(id, offer, code, c, answer, later);
    CancelShape(id, offer, c, later, Revived(id, offer, code, answer, Some(c)));
  }

  lemma CancelShape(id: nat, offer: string, c: string, later: string, r: Session)
    ensures var e := AnswerReady(later, true, None);
            var m := Second(id, r, Step(Step(Again(id, offer, P.CandidateValue(c), []), e), e), Done, Done);
            && Settled(m, 1) && multiset(m.sessions[1].ice.applied) == Bag([c, c])
            && |m.sessions[1].ice.arrived| == 1
  {
    var v, e := P.CandidateValue(c), AnswerReady(later, true, None);
    assert Step(Step(Again(id, offer, v, []), e), e).ice == Again(id, offer, v, []).ice;
    assert Values([c, c]) == [v, v];
  }

  // ---- the same request delivered twice ----

  // One candidate waits for a description while two handlers apply the offer.
  function Twice(id: nat, offer: string, v: string): Manager {
    Manager(map[id := 0], map[], [Fresh(id, false).(ice := P.Ice([], false, [v], [], [v]))],
            [ApplyingOffer(0, offer, true), ApplyingOffer(0, offer, false)])
  }

  function Joined(id: nat, offer: string): Manager {
    Manager(map[id := 0], map[], [Fresh(id, false)], [ApplyingOffer(0, offer, true), ApplyingOffer(0, offer, false)])
  }

  lemma RequestedTwice(events: seq<MEvent>, request: string, id: nat, offer: string)
    requires S.Parse(request) == Some(S.ConnectRequest(id, offer))
    requires Leads(NEW_MANAGER, events,
                   Manager(map[id := 0], map[], [Fresh(id, false)], [ApplyingOffer(0, offer, true)]))
    ensures Leads(NEW_MANAGER, events + [Receive(request)], Joined(id, offer))
  {
    var m := Manager(map[id := 0], map[], [Fresh(id, false)], [ApplyingOffer(0, offer, true)]);
    RequestJoins(m, request, id, offer);
    Then(NEW_MANAGER, events, m, [Receive(request)], Joined(id, offer));
  }

  lemma ThenCandidate(events: seq<MEvent>, candidate: string, id: nat, offer: string, c: string)
    requires Leads(NEW_MANAGER, events, Joined(id, offer)) && S.Parse(candidate) == Some(S.CandidateAdd(id, c))
    ensures Leads(NEW_MANAGER, events + [Receive(candidate)], Twice(id, offer, P.CandidateValue(c)))
  {
    CandidateReaches(Joined(id, offer), candidate, id, c, Fresh(id, false));
    var v := P.CandidateValue(c);
    assert P.AddCandidate(P.NEW_ICE, c) == P.Ice([], false, [v], [], [v]);
    assert Leads(Joined(id, offer), [Receive(candidate)], Twice(id, offer, v));
    Then(NEW_MANAGER, events, Joined(id, offer), [Receive(candidate)], Twice(id, offer, P.CandidateValue(c)));
  }

  lemma DescribedTwice(id: nat, offer: string, v: string)
    ensures var m := Twice(id, offer, v);
            && WellFormed(m) && var m1 := MRun(m, [Resume(0, "")] + [Resume(1, "")]);
               |m1.sessions| == 1 && m1.sessions[0].ice.arrived == [v] && m1.sessions[0].ice.applied == [v, v]
  {
    var m := Twice(id, offer, v);
    var s := m.sessions[0];
    var s1 := Step(s, Sessions.Described(offer));
    StepIce(s, Sessions.Described(offer));
    Resumes(m, 0, "", Sessions.Described(offer));
    var m1 := m.(sessions := [s1], tasks := [Flushing(0, 1, true, true), ApplyingOffer(0, offer, false)]);
    assert Leads(m, [Resume(0, "")], m1);
    StepIce(s1, Sessions.Described(offer));
    Resumes(m1, 1, "", Sessions.Described(offer));
    var m2 := MRun(m1, [Resume(1, "")]);
    Then(m, [Resume(0, "")], m1, [Resume(1, "")], m2);
  }

  // The same request delivered twice before its offer is applied: two flushes overlap, and the
  // one candidate that arrived is given to the ICE library twice, whatever its text.
  lemma TwoRequestsDoubleACandidate(id: nat, offer: string, c: string)
    requires id <= U64_MAX
    ensures var m := MRun(NEW_MANAGER, [Request(id, offer)] + [Request(id, offer)] + [Candidate(id, c)]
                                       + ([Resume(0, "")] + [Resume(1, "")]));
            var v := P.CandidateValue(c);
            |m.sessions| == 1 && m.sessions[0].ice.arrived == [v] && m.sessions[0].ice.applied == [v, v]
  {
    S.RoundTrip(S.ConnectRequest(id, offer));
    S.RoundTrip(S.CandidateAdd(id, c));
    Created(S.Serialize(S.ConnectRequest(id, offer)), id, offer);
    RequestedTwice([Request(id, offer)], S.Serialize(S.ConnectRequest(id, offer)), id, offer);
    ThenCandidate([Request(id, offer)] + [Request(id, offer)], S.Serialize(S.CandidateAdd(id, c)), id, offer, c);
    DescribedTwice(id, offer, P.CandidateValue(c));
    RunConcat(NEW_MANAGER, [Request(id, offer)] + [Request(id, offer)] + [Candidate(id, c)],
              [Resume(0, "")] + [Resume(1, "")]);
  }
}
