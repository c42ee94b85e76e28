// When the code loses a living session: exactly which steps leave a session that is not closed
// without the route of its id.
module Mapping {
  import opened Basics
  import S = Signaling
  import opened Sessions
  import opened Managers
  import opened Routing

  predicate Mapped(m: Manager, who: nat)
    requires who < |m.sessions|
  {
    var id := m.sessions[who].id;
    id in m.routes && m.routes[id] == who
  }

  // Every session that is not closed is the one its id routes to.
  predicate LiveMapped(m: Manager) {
    forall who :: 0 <= who < |m.sessions| && m.sessions[who].phase != CLOSED ==> Mapped(m, who)
  }

  // A coroutine writes its state over a close.
  predicate Revives(m: Manager, e: MEvent)
    requires WellFormed(m)
  {
    var effect := EffectOf(m, e);
    effect.Touches? && effect.who < |m.sessions| && IsLate(effect.e) && m.sessions[effect.who].phase == CLOSED
  }

  // A new dialer gets an id that is in use.
  predicate Overwrites(m: Manager, e: MEvent) { e.Connect? && e.id in m.routes }

  predicate Dislodges(m: Manager, e: MEvent)
    requires WellFormed(m)
  {
    Revives(m, e) || Overwrites(m, e)
  }

  // The routes after a step: one more for a session created, one less for a session closed.
  function RoutesAfter(m: Manager, e: MEvent): map<nat, nat>
    requires WellFormed(m)
  {
    var effect := EffectOf(m, e);
    if Created(m, e) != [] then m.routes[Created(m, e)[0].id := |m.sessions|]
    else if effect.Touches? && effect.who < |m.sessions| && m.sessions[effect.who].phase != CLOSED
            && Step(m.sessions[effect.who], effect.e).phase == CLOSED
    then m.routes - {m.sessions[effect.who].id} else m.routes
  }

  lemma ResumeRoutes(m: Manager, i: nat, sdp: string)
    requires WellFormed(m) && i < |m.tasks|
    ensures ResumeTask(m, i, sdp).routes == RoutesAfter(m, Resume(i, sdp))
  {
  }

  lemma SignalRoutes(m: Manager, text: string)
    requires WellFormed(m)
    ensures HandleSignal(m, text).routes == RoutesAfter(m, Receive(text))
  {
  }

  lemma StepRoutes(m: Manager, e: MEvent)
    requires WellFormed(m)
    ensures MStep(m, e).routes == RoutesAfter(m, e)
  {
    match e {
      case Resume(i, sdp) =>
        if i < |m.tasks| {
          ResumeRoutes(m, i, sdp);
        }
      case Receive(text) => SignalRoutes(m, text);
      case _ =>
    }
  }

  lemma CreatedIsLive(m: Manager, e: MEvent)
    requires WellFormed(m)
    ensures |Created(m, e)| <= 1 && (Created(m, e) != [] ==> !EffectOf(m, e).Touches? && Created(m, e)[0].phase == IDLE)
    ensures Created(m, e) != [] && Created(m, e)[0].id in m.routes <==> Overwrites(m, e)
  {
  }

  lemma CloseOrReopen(s: Session, e: Event)
    ensures s.phase == CLOSED ==> (Step(s, e).phase != CLOSED <==> IsLate(e))
  {
  }

  // The two parts of a manager these properties are about.
  ghost predicate Sound(routes: map<nat, nat>, sessions: seq<Session>) {
    forall id :: id in routes ==>
      routes[id] < |sessions| && sessions[routes[id]].id == id && sessions[routes[id]].phase != CLOSED
  }

  predicate Live(routes: map<nat, nat>, sessions: seq<Session>) {
    forall who :: 0 <= who < |sessions| && sessions[who].phase != CLOSED ==>
      sessions[who].id in routes && routes[sessions[who].id] == who
  }

  lemma CreateKeepsLiveIff(routes: map<nat, nat>, sessions: seq<Session>, s: Session)
    requires Sound(routes, sessions) && Live(routes, sessions) && s.phase != CLOSED
    ensures Live(routes[s.id := |sessions|], sessions + [s]) <==> s.id !in routes
  {
    var routes1, sessions1 := routes[s.id := |sessions|], sessions + [s];
    if s.id in routes {
      assert sessions1[routes[s.id]] == sessions[routes[s.id]];
    }
  }

  lemma TouchKeepsLiveIff(routes: map<nat, nat>, sessions: seq<Session>, who: nat, s: Session)
    requires Sound(routes, sessions) && Live(routes, sessions) && who < |sessions| && s.id == sessions[who].id
    ensures var closes := sessions[who].phase != CLOSED && s.phase == CLOSED;
            Live(if closes then routes - {s.id} else routes, sessions[who := s])
            <==> !(sessions[who].phase == CLOSED && s.phase != CLOSED)
  {
    if sessions[who].phase == CLOSED && s.phase != CLOSED {
      assert sessions[who := s][who] == s;
    }
  }

  // One step from a state in which every living session is mapped.
  lemma LiveMappedStepIff(m: Manager, e: MEvent)
    requires RoutingOk(m) && LiveMapped(m)
    ensures LiveMapped(MStep(m, e)) <==> !Dislodges(m, e)
  {
    var m1, effect := MStep(m, e), EffectOf(m, e);
    StepTouchesOneSession(m, e);
    StepRoutes(m, e);
    CreatedIsLive(m, e);
    if Created(m, e) != [] {
      CreateKeepsLiveIff(m.routes, m.sessions, Created(m, e)[0]);
      assert m1.sessions == m.sessions + [Created(m, e)[0]];
    } else if effect.Touches? {
      var s := Step(m.sessions[effect.who], effect.e);
      StepKeepsIdentity(m.sessions[effect.who], effect.e);
      CloseOrReopen(m.sessions[effect.who], effect.e);
      TouchKeepsLiveIff(m.routes, m.sessions, effect.who, s);
      assert m1.sessions == m.sessions[effect.who := s];
    }
  }

  // Every living session is mapped after every event of the run.
  predicate AlwaysLiveMapped(events: seq<MEvent>) {
    LiveMapped(MRun(NEW_MANAGER, events)) && (events != [] ==> AlwaysLiveMapped(events[..|events| - 1]))
  }

  predicate NoneDislodges(events: seq<MEvent>) {
    events != [] ==>
      && NoneDislodges(events[..|events| - 1])
      && !Dislodges(MRun(NEW_MANAGER, events[..|events| - 1]), events[|events| - 1])
  }

  // The code keeps every session that is not closed reachable by its id, after every event of a
  // run, if and only if no coroutine writes its state over a close and no new dialer gets an id
  // in use.
  lemma {:induction false} LiveMappedIff(events: seq<MEvent>)
    ensures AlwaysLiveMapped(events) <==> NoneDislodges(events)
  {
    if events != [] {
      var front, e := events[..|events| - 1], events[|events| - 1];
      LiveMappedIff(front);
      if AlwaysLiveMapped(front) {
        RoutingInvariant(front);
        assert LiveMapped(MRun(NEW_MANAGER, front));
        LiveMappedStepIff(MRun(NEW_MANAGER, front), e);
      }
    }
  }

  // A living session of the id is closed by the step.
  predicate ClosesId(m: Manager, e: MEvent, id: nat)
    requires WellFormed(m)
  {
    var effect := EffectOf(m, e);
    && effect.Touches? && effect.who < |m.sessions| && m.sessions[effect.who].id == id
    && m.sessions[effect.who].phase != CLOSED && Step(m.sessions[effect.who], effect.e).phase == CLOSED
  }

  // A route survives a step, and leads to the same session, if and only if the step neither
  // closes a session of that id, the mapped one or another, nor connects anew under it.
  lemma RouteSurvivesIff(m: Manager, e: MEvent, id: nat)
    requires RoutingOk(m) && id in m.routes
    ensures id in MStep(m, e).routes && MStep(m, e).routes[id] == m.routes[id]
            <==> !ClosesId(m, e, id) && e != Connect(id)
  {
    StepRoutes(m, e);
    CreatedIsLive(m, e);
  }

  // Under quiet windows and with unused ids for new dialers the map is exactly the living
  // sessions, each under its id.
  lemma {:induction false} QuietMapIsTheLiving(events: seq<MEvent>)
    requires QuietRun(events) && IdsUnused(events)
    ensures var m := MRun(NEW_MANAGER, events);
            && LiveMapped(m)
            && forall id, who: nat :: (id in m.routes && m.routes[id] == who)
                 <==> (who < |m.sessions| && m.sessions[who].id == id && m.sessions[who].phase != CLOSED)
  {
    QuietDislodgesNone(events);
    LiveMappedIff(events);
    RoutingInvariant(events);
    var m := MRun(NEW_MANAGER, events);
    forall id, who: nat | who < |m.sessions| && m.sessions[who].id == id && m.sessions[who].phase != CLOSED
      ensures id in m.routes && m.routes[id] == who
    {
      assert Mapped(m, who);
    }
  }

  predicate IdsUnused(events: seq<MEvent>) {
    events != [] ==>
      && IdsUnused(events[..|events| - 1])
      && !Overwrites(MRun(NEW_MANAGER, events[..|events| - 1]), events[|events| - 1])
  }

  lemma {:induction false} QuietDislodgesNone(events: seq<MEvent>)
    requires QuietRun(events) && IdsUnused(events)
    ensures NoneDislodges(events)
  {
    if events != [] {
      QuietDislodgesNone(events[..|events| - 1]);
    }
  }
}
