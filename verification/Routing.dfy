// What every run of a manager keeps: its sessions are session runs, its map and its parked
// candidates stay consistent.
module Routing {
  import opened Basics
  import S = Signaling
  import opened Sessions
  import opened Managers

  // ---- a manager step, seen by its sessions ----

  datatype Effect = NoEffect | Touches(who: nat, e: Event)

  function DispatchEffect(s: Session, who: nat, message: S.Message): Effect {
    if s.phase == CLOSED then NoEffect
    else
      match message
      case ConnectError(_, error) => Touches(who, ErrorArrived(error))
      case CandidateAdd(_, candidate) => Touches(who, CandidateArrived(candidate))
      case ConnectResponse(_, _) =>
        if s.isDialer && s.phase == OFFER_SENT then Touches(who, AnswerArrived) else NoEffect
      case ConnectRequest(_, _) => NoEffect
  }

  function EffectOf(m: Manager, e: MEvent): Effect
    requires WellFormed(m)
  {
    match e
    case Connect(_) => NoEffect
    case Receive(text) =>
      (match S.Parse(text)
       case None => NoEffect
       case Some(message) =>
         if message.id in m.routes
         then DispatchEffect(m.sessions[m.routes[message.id]], m.routes[message.id], message) else NoEffect)
    case Resume(i, sdp) =>
      if i < |m.tasks| && !m.tasks[i].Done? then
        var t := m.tasks[i];
        var event := EventOf(t, sdp, Parked(m, m.sessions[t.who].id));
        if event.Some? then Touches(t.who, event.value) else NoEffect
      else NoEffect
    case External(who, e) => if who < |m.sessions| && IsExternal(e) then Touches(who, e) else NoEffect
  }

  // The session a manager step creates, if any.
  function Created(m: Manager, e: MEvent): seq<Session> {
    match e
    case Connect(id) => [Fresh(id, true)]
    case Receive(text) =>
      (match S.Parse(text)
       case Some(ConnectRequest(id, _)) => if id in m.routes then [] else [Fresh(id, false)]
       case _ => [])
    case _ => []
  }

  function Touch(sessions: seq<Session>, effect: Effect): seq<Session>
    requires effect.Touches? ==> effect.who < |sessions|
  {
    match effect
    case NoEffect => sessions
    case Touches(who, e) => sessions[who := Step(sessions[who], e)]
  }

  // Every manager step is one session event or one fresh session, and nothing else to sessions.
  lemma StepTouchesOneSession(m: Manager, e: MEvent)
    requires WellFormed(m)
    ensures EffectOf(m, e).Touches? ==>
              EffectOf(m, e).who < |m.sessions| && FitsRole(m.sessions[EffectOf(m, e).who].isDialer, EffectOf(m, e).e)
    ensures MStep(m, e).sessions == Touch(m.sessions, EffectOf(m, e)) + Created(m, e)
  {
  }

  // The coroutine a step starts, if any.
  function SpawnedBy(s: Session, who: nat, message: S.Message): seq<Task> {
    if s.phase == CLOSED then []
    else
      match message
      case ConnectResponse(_, sdp) => if s.isDialer && s.phase == OFFER_SENT then [ApplyingAnswer(who, sdp)] else []
      case ConnectRequest(_, sdp) => if !s.isDialer && s.phase == IDLE then [ApplyingOffer(who, sdp, false)] else []
      case _ => []
  }

  function Spawned(m: Manager, e: MEvent): seq<Task>
    requires WellFormed(m)
  {
    match e
    case Connect(_) => [Offering(|m.sessions|)]
    case Receive(text) =>
      (match S.Parse(text)
       case None => []
       case Some(message) =>
         if message.id in m.routes
         then SpawnedBy(m.sessions[m.routes[message.id]], m.routes[message.id], message)
         else if message.ConnectRequest? then [ApplyingOffer(|m.sessions|, message.sdp, true)] else [])
    case _ => []
  }

  predicate Resumes(m: Manager, e: MEvent) { e.Resume? && e.task < |m.tasks| && !m.tasks[e.task].Done? }

  lemma SignalTasks(m: Manager, text: string)
    requires WellFormed(m)
    ensures HandleSignal(m, text).tasks == m.tasks + Spawned(m, Receive(text))
  {
    assert m.tasks + [] == m.tasks;
  }

  lemma StepTasks(m: Manager, e: MEvent)
    requires WellFormed(m)
    ensures MStep(m, e).tasks
            == if Resumes(m, e) then
                 var t := m.tasks[e.task];
                 var s := m.sessions[t.who];
                 m.tasks[e.task := NextTask(t, s, Parked(m, s.id))]
               else m.tasks + Spawned(m, e)
  {
    assert m.tasks + [] == m.tasks;
    if e.Receive? {
      SignalTasks(m, e.text);
    }
  }

  // ---- sessions of a manager are session runs ----

  ghost predicate Reached(s: Session) {
    exists events :: AllFitRole(s.isDialer, events) && s == Run(Fresh(s.id, s.isDialer), events)
  }

  lemma FreshIsReached(id: nat, isDialer: bool)
    ensures Reached(Fresh(id, isDialer))
  {
    var none: seq<Event> := [];
    assert AllFitRole(isDialer, none) && Run(Fresh(id, isDialer), none) == Fresh(id, isDialer);
  }

  lemma RunOneMore(s: Session, events: seq<Event>, e: Event)
    ensures Run(s, events + [e]) == Step(Run(s, events), e)
  {
    assert (events + [e])[..|events|] == events;
  }

  lemma StepIsReached(s: Session, e: Event)
    requires Reached(s) && FitsRole(s.isDialer, e)
    ensures Reached(Step(s, e))
  {
    var events :| AllFitRole(s.isDialer, events) && s == Run(Fresh(s.id, s.isDialer), events);
    StepKeepsIdentity(s, e);
    RunOneMore(Fresh(s.id, s.isDialer), events, e);
    assert AllFitRole(s.isDialer, events + [e]);
  }

  ghost predicate AllReached(sessions: seq<Session>) {
    forall who :: 0 <= who < |sessions| ==> Reached(sessions[who])
  }

  lemma {:induction false} SessionsAreRuns(events: seq<MEvent>)
    ensures AllReached(MRun(NEW_MANAGER, events).sessions)
  {
    if events != [] {
      var m, e := MRun(NEW_MANAGER, events[..|events| - 1]), events[|events| - 1];
      SessionsAreRuns(events[..|events| - 1]);
      StepTouchesOneSession(m, e);
      TouchReached(m.sessions, EffectOf(m, e));
      CreatedReached(m, e);
    }
  }

  lemma TouchReached(sessions: seq<Session>, effect: Effect)
    requires AllReached(sessions)
    requires effect.Touches? ==> effect.who < |sessions| && FitsRole(sessions[effect.who].isDialer, effect.e)
    ensures AllReached(Touch(sessions, effect))
  {
    if effect.Touches? {
      StepIsReached(sessions[effect.who], effect.e);
    }
  }

  lemma CreatedReached(m: Manager, e: MEvent)
    ensures AllReached(Created(m, e))
  {
    forall id, isDialer { FreshIsReached(id, isDialer); }
  }

  // So in every run of a manager the timers match the phases.
  lemma {:induction false} TimersMatchPhases(events: seq<MEvent>, who: nat)
    requires who < |MRun(NEW_MANAGER, events).sessions|
    ensures var s := MRun(NEW_MANAGER, events).sessions[who]; s.timer == TimerFor(s.phase)
  {
    SessionsAreRuns(events);
    var s := MRun(NEW_MANAGER, events).sessions[who];
    assert Reached(s);
    var run :| AllFitRole(s.isDialer, run) && s == Run(Fresh(s.id, s.isDialer), run);
    TimerMatchesPhase(s.id, s.isDialer, run);
  }

  lemma ReachedCloses(s: Session, e: Event)
    requires Reached(s) && s.phase != CLOSED
    ensures Step(s, e).phase == CLOSED <==> exists error :: ClosesWith(s, e, error)
    ensures forall error :: ClosesWith(s, e, error) ==> Step(s, e).log == s.log + [Closed(error)]
  {
    var run :| AllFitRole(s.isDialer, run) && s == Run(Fresh(s.id, s.isDialer), run);
    ClosesIff(s.id, s.isDialer, run, e);
  }

  predicate FromOutside(e: Event) { e.ChannelsOpen? || e.TransportState? || e.Timeout? || e.Close? }

  // The transport's callbacks, the timer and the application's close reach the session they are
  // for, and no other: it closes, and leaves the map, exactly when one of them closes it, and it
  // opens when its channels do.
  lemma CallbacksReach(events: seq<MEvent>, who: nat, e: Event)
    requires who < |MRun(NEW_MANAGER, events).sessions| && FromOutside(e)
    requires MRun(NEW_MANAGER, events).sessions[who].phase != CLOSED
    ensures var m := MRun(NEW_MANAGER, events);
            var m1 := MStep(m, External(who, e));
            var s := m.sessions[who];
            && who < |m1.sessions|
            && m1 == m.(sessions := m.sessions[who := m1.sessions[who]], routes := m1.routes)
            && (m1.sessions[who].phase == CLOSED <==> exists error :: ClosesWith(s, e, error))
            && (forall error :: ClosesWith(s, e, error) ==> m1.sessions[who].log == s.log + [Closed(error)])
            && m1.routes == (if m1.sessions[who].phase == CLOSED then m.routes - {s.id} else m.routes)
            && (e.ChannelsOpen? ==> m1.sessions[who].phase == CONNECTED)
  {
    SessionsAreRuns(events);
    ReachedCloses(MRun(NEW_MANAGER, events).sessions[who], e);
    Reaches(MRun(NEW_MANAGER, events), who, e);
  }

  lemma Reaches(m: Manager, who: nat, e: Event)
    requires WellFormed(m) && who < |m.sessions| && FromOutside(e)
    ensures MStep(m, External(who, e)) == Apply(m, who, e)
  {
  }

  // Each coroutine that resumes to write a state finds the session where it left it.
  predicate QuietStep(m: Manager, e: MEvent)
    requires WellFormed(m)
  {
    EffectOf(m, e).Touches? && EffectOf(m, e).who < |m.sessions| ==>
      WindowQuiet(m.sessions[EffectOf(m, e).who], EffectOf(m, e).e)
  }

  predicate QuietRun(events: seq<MEvent>) {
    events != [] ==>
      QuietRun(events[..|events| - 1])
      && QuietStep(MRun(NEW_MANAGER, events[..|events| - 1]), events[|events| - 1])
  }

  predicate InOrder(sessions: seq<Session>) {
    forall who :: 0 <= who < |sessions| ==> LogFits(sessions[who]) && RolePhase(sessions[who])
  }

  lemma TouchInOrder(sessions: seq<Session>, effect: Effect)
    requires InOrder(sessions)
    requires effect.Touches? ==>
               && effect.who < |sessions| && FitsRole(sessions[effect.who].isDialer, effect.e)
               && WindowQuiet(sessions[effect.who], effect.e)
    ensures InOrder(Touch(sessions, effect))
  {
    if effect.Touches? {
      LogStep(sessions[effect.who], effect.e);
      StepClimbsIff(sessions[effect.who], effect.e);
    }
  }

  // Under that hypothesis every session of a manager lives its phases in order: on_open and
  // on_close fire at most once each, in that order.
  lemma {:induction false} QuietManagerLifecycle(events: seq<MEvent>)
    requires QuietRun(events)
    ensures InOrder(MRun(NEW_MANAGER, events).sessions)
  {
    if events != [] {
      var m, e := MRun(NEW_MANAGER, events[..|events| - 1]), events[|events| - 1];
      QuietManagerLifecycle(events[..|events| - 1]);
      StepTouchesOneSession(m, e);
      TouchInOrder(m.sessions, EffectOf(m, e));
    }
  }

  // The phases of every session are its role's, in every run.
  predicate InRole(sessions: seq<Session>) {
    forall who :: 0 <= who < |sessions| ==> RolePhase(sessions[who])
  }

  lemma TouchInRole(sessions: seq<Session>, effect: Effect)
    requires InRole(sessions)
    requires effect.Touches? ==> effect.who < |sessions| && FitsRole(sessions[effect.who].isDialer, effect.e)
    ensures InRole(Touch(sessions, effect))
  {
    if effect.Touches? {
      StepClimbsIff(sessions[effect.who], effect.e);
    }
  }

  lemma {:induction false} RolesHold(events: seq<MEvent>)
    ensures InRole(MRun(NEW_MANAGER, events).sessions)
  {
    if events != [] {
      var m, e := MRun(NEW_MANAGER, events[..|events| - 1]), events[|events| - 1];
      RolesHold(events[..|events| - 1]);
      StepTouchesOneSession(m, e);
      TouchInRole(m.sessions, EffectOf(m, e));
    }
  }

  // A step of the manager that takes no session back in its lifecycle.
  predicate NoneFalls(before: seq<Session>, after: seq<Session>) {
    |before| <= |after| && forall who :: 0 <= who < |before| ==>
      Level(before[who].isDialer, before[who].phase) <= Level(before[who].isDialer, after[who].phase)
  }

  lemma NoneFallsIff(m: Manager, e: MEvent)
    requires WellFormed(m) && InRole(m.sessions)
    ensures NoneFalls(m.sessions, MStep(m, e).sessions) <==> QuietStep(m, e)
  {
    StepTouchesOneSession(m, e);
    TouchFallsIff(m.sessions, EffectOf(m, e), Created(m, e));
  }

  lemma TouchFallsIff(sessions: seq<Session>, effect: Effect, created: seq<Session>)
    requires InRole(sessions)
    requires effect.Touches? ==> effect.who < |sessions| && FitsRole(sessions[effect.who].isDialer, effect.e)
    ensures NoneFalls(sessions, Touch(sessions, effect) + created)
            <==> (effect.Touches? ==> WindowQuiet(sessions[effect.who], effect.e))
  {
    if effect.Touches? {
      var s, after := sessions[effect.who], Touch(sessions, effect) + created;
      StepClimbsIff(s, effect.e);
      assert after[effect.who] == Step(s, effect.e);
      assert forall who :: 0 <= who < |sessions| && who != effect.who ==> after[who] == sessions[who];
    }
  }

  // No session of the manager ever steps back.
  predicate AllClimb(events: seq<MEvent>) {
    events != [] ==>
      && AllClimb(events[..|events| - 1])
      && NoneFalls(MRun(NEW_MANAGER, events[..|events| - 1]).sessions, MRun(NEW_MANAGER, events).sessions)
  }

  // Exactly the runs with quiet windows.
  lemma {:induction false} AllClimbIff(events: seq<MEvent>)
    ensures AllClimb(events) <==> QuietRun(events)
  {
    if events != [] {
      var m, e := MRun(NEW_MANAGER, events[..|events| - 1]), events[|events| - 1];
      AllClimbIff(events[..|events| - 1]);
      RolesHold(events[..|events| - 1]);
      NoneFallsIff(m, e);
    }
  }

  // ---- the routing map and the parked candidates ----

  predicate IsFirst(t: Task, who: nat) {
    !t.Done? && t.who == who && ((t.ApplyingOffer? && t.first) || (t.Flushing? && t.first) || (t.Answering? && t.first))
  }

  // The handler that created session `who` has not replayed its parked candidates yet.
  predicate ReplayAhead(m: Manager, who: nat) {
    exists i :: 0 <= i < |m.tasks| && IsFirst(m.tasks[i], who)
  }

  ghost predicate RoutesOk(m: Manager)
    requires WellFormed(m)
  {
    forall id :: id in m.routes ==> m.sessions[m.routes[id]].id == id && m.sessions[m.routes[id]].phase != CLOSED
  }

  ghost predicate ParkedOk(m: Manager) {
    forall id :: id in m.parked ==> |m.parked[id]| <= MAX_PENDING_CANDIDATES
  }

  ghost predicate ReplayOk(m: Manager)
    requires WellFormed(m)
  {
    forall id :: id in m.routes && id in m.parked && !m.sessions[m.routes[id]].isDialer ==> ReplayAhead(m, m.routes[id])
  }

  ghost predicate RoutingOk(m: Manager) { WellFormed(m) && RoutesOk(m) && ParkedOk(m) && ReplayOk(m) }

  lemma ApplyKeeps(m: Manager, who: nat, e: Event)
    requires RoutingOk(m) && who < |m.sessions|
    ensures RoutingOk(Apply(m, who, e))
  {
    var m1 := Apply(m, who, e);
    ApplyWellFormed(m, who, e);
    assert forall w :: 0 <= w < |m.sessions| ==> m1.sessions[w].id == m.sessions[w].id;
    forall id | id in m1.routes && id in m1.parked && !m1.sessions[m1.routes[id]].isDialer
      ensures ReplayAhead(m1, m1.routes[id])
    {
      assert ReplayAhead(m, m.routes[id]);
    }
  }

  lemma SpawnKeeps(m: Manager, t: Task)
    requires RoutingOk(m) && TaskFits(t, m.sessions)
    ensures RoutingOk(Spawn(m, t))
  {
    var m1 := Spawn(m, t);
    forall id | id in m1.routes && id in m1.parked && !m1.sessions[m1.routes[id]].isDialer
      ensures ReplayAhead(m1, m1.routes[id])
    {
      var i :| 0 <= i < |m.tasks| && IsFirst(m.tasks[i], m.routes[id]);
      assert IsFirst(m1.tasks[i], m1.routes[id]);
    }
  }

  lemma DispatchKeeps(m: Manager, who: nat, message: S.Message)
    requires RoutingOk(m) && who < |m.sessions|
    ensures RoutingOk(Dispatch(m, who, message, false))
  {
    var s := m.sessions[who];
    if s.phase != CLOSED {
      match message {
        case ConnectError(_, error) => ApplyKeeps(m, who, ErrorArrived(error));
        case CandidateAdd(_, candidate) => ApplyKeeps(m, who, CandidateArrived(candidate));
        case ConnectResponse(_, sdp) =>
          ApplyKeeps(m, who, AnswerArrived);
          if s.isDialer && s.phase == OFFER_SENT {
            SpawnKeeps(Apply(m, who, AnswerArrived), ApplyingAnswer(who, sdp));
          }
        case ConnectRequest(_, sdp) =>
          if !s.isDialer && s.phase == IDLE {
            SpawnKeeps(m, ApplyingOffer(who, sdp, false));
          }
      }
    }
  }

  // Creating a session together with the coroutine that works on it.
  lemma CreateKeeps(m: Manager, id: nat, isDialer: bool, t: Task)
    requires RoutingOk(m)
    requires if isDialer then t == Offering(|m.sessions|) else t.ApplyingOffer? && t.who == |m.sessions| && t.first
    ensures RoutingOk(Spawn(Create(m, id, isDialer), t))
  {
    var m1 := Spawn(Create(m, id, isDialer), t);
    forall other | other in m1.routes && other in m1.parked && !m1.sessions[m1.routes[other]].isDialer
      ensures ReplayAhead(m1, m1.routes[other])
    {
      if other == id {
        assert IsFirst(m1.tasks[|m.tasks|], m1.routes[id]);
      } else {
        var i :| 0 <= i < |m.tasks| && IsFirst(m.tasks[i], m.routes[other]);
        assert IsFirst(m1.tasks[i], m1.routes[other]);
      }
    }
  }

  lemma SignalKeeps(m: Manager, text: string)
    requires RoutingOk(m)
    ensures RoutingOk(HandleSignal(m, text))
  {
    if S.Parse(text).Some? {
      var message := S.Parse(text).value;
      if message.id in m.routes {
        DispatchKeeps(m, m.routes[message.id], message);
      } else if message.ConnectRequest? {
        CreateKeeps(m, message.id, false, ApplyingOffer(|m.sessions|, message.sdp, true));
      } else if message.CandidateAdd? {
        var m1 := Park(m, message.id, message.candidate);
        forall id | id in m1.routes && id in m1.parked && !m1.sessions[m1.routes[id]].isDialer
          ensures ReplayAhead(m1, m1.routes[id])
        {
          assert ReplayAhead(m, m.routes[id]);
        }
      }
    }
  }

  lemma ResumeKeeps(m: Manager, i: nat, sdp: string)
    requires RoutingOk(m) && i < |m.tasks|
    ensures RoutingOk(ResumeTask(m, i, sdp))
  {
    var t := m.tasks[i];
    if !t.Done? {
      var s := m.sessions[t.who];
      var next := NextTask(t, s, Parked(m, s.id));
      var parked := if t.Answering? && t.first then m.parked - {s.id} else m.parked;
      var m1 := SetTask(m, i, next).(parked := parked);
      forall id | id in m1.routes && id in m1.parked && !m1.sessions[m1.routes[id]].isDialer
        ensures ReplayAhead(m1, m1.routes[id])
      {
        var j :| 0 <= j < |m.tasks| && IsFirst(m.tasks[j], m.routes[id]);
        assert IsFirst(m1.tasks[j], m1.routes[id]);
      }
      assert RoutingOk(m1);
      var e := EventOf(t, sdp, Parked(m, s.id));
      if e.Some? {
        ApplyKeeps(m1, t.who, e.value);
      }
    }
  }

  lemma RoutingKeeps(m: Manager, e: MEvent)
    requires RoutingOk(m)
    ensures RoutingOk(MStep(m, e))
  {
    match e {
      case Connect(id) => CreateKeeps(m, id, true, Offering(|m.sessions|));
      case Receive(text) => SignalKeeps(m, text);
      case Resume(i, sdp) => if i < |m.tasks| { ResumeKeeps(m, i, sdp); }
      case External(who, e) => if who < |m.sessions| && IsExternal(e) { ApplyKeeps(m, who, e); }
    }
  }

  // In every run: a map entry's key is its session's id and its session is not CLOSED; at most
  // 64 candidates wait for an id; and none wait for a mapped listener whose replay has begun.
  lemma {:induction false} RoutingInvariant(events: seq<MEvent>)
    ensures RoutingOk(MRun(NEW_MANAGER, events))
  {
    if events != [] {
      RoutingInvariant(events[..|events| - 1]);
      RoutingKeeps(MRun(NEW_MANAGER, events[..|events| - 1]), events[|events| - 1]);
    }
  }
}
