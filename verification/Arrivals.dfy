// From the wire to a listener: which candidates reach the session an incoming request creates.
module Arrivals {
  import opened Basics
  import P = PeerConnections
  import S = Signaling
  import opened Sessions
  import opened Managers
  import opened Routing
  import opened Conservation
  import opened Mapping

  // The candidate an event brings for an id.
  function HeardIn(id: nat, e: MEvent): seq<string> {
    match e
    case Receive(text) =>
      (match S.Parse(text)
       case Some(CandidateAdd(i, candidate)) => if i == id then [candidate] else []
       case _ => [])
    case _ => []
  }

  // The candidates heard for an id from event number n on.
  function HeardFrom(id: nat, events: seq<MEvent>, n: nat): seq<string> {
    if |events| <= n then []
    else HeardFrom(id, events[..|events| - 1], n) + HeardIn(id, events[|events| - 1])
  }

  function First64(texts: seq<string>): seq<string> {
    if |texts| <= MAX_PENDING_CANDIDATES then texts else texts[..MAX_PENDING_CANDIDATES]
  }

  predicate NoSession(m: Manager, id: nat) {
    forall who :: 0 <= who < |m.sessions| ==> m.sessions[who].id != id
  }

  lemma IdentitiesKeep(m: Manager, e: MEvent, who: nat)
    requires WellFormed(m) && who < |m.sessions|
    ensures var m1 := MStep(m, e);
            who < |m1.sessions| && m1.sessions[who].id == m.sessions[who].id
            && m1.sessions[who].isDialer == m.sessions[who].isDialer
  {
    StepTouchesOneSession(m, e);
    var effect := EffectOf(m, e);
    if effect.Touches? && effect.who == who {
      StepKeepsIdentity(m.sessions[who], effect.e);
    }
  }

  // A handler that created a session with the id has its answer, and takes the parked list.
  predicate TakesList(m: Manager, e: MEvent, id: nat)
    requires WellFormed(m)
  {
    && e.Resume? && e.task < |m.tasks| && m.tasks[e.task].Answering? && m.tasks[e.task].first
    && m.sessions[m.tasks[e.task].who].id == id
  }

  // The candidates heard for an id while it was not routed, since its list was last taken.
  function Unclaimed(id: nat, events: seq<MEvent>): seq<string> {
    if events == [] then []
    else
      var front, e := events[..|events| - 1], events[|events| - 1];
      var m := MRun(NEW_MANAGER, front);
      if TakesList(m, e, id) then []
      else Unclaimed(id, front) + if id in m.routes then [] else HeardIn(id, e)
  }

  lemma ParkingResume(m: Manager, i: nat, sdp: string, id: nat)
    requires WellFormed(m) && i < |m.tasks|
    ensures Parked(ResumeTask(m, i, sdp), id) == if TakesList(m, Resume(i, sdp), id) then [] else Parked(m, id)
  {
    if !m.tasks[i].Done? {
      ResumeShape(m, i, sdp);
    }
  }

  lemma ParkingSignal(m: Manager, text: string, id: nat)
    requires WellFormed(m)
    ensures Parked(HandleSignal(m, text), id) ==
            if id !in m.routes && HeardIn(id, Receive(text)) != [] && |Parked(m, id)| < MAX_PENDING_CANDIDATES
            then Parked(m, id) + HeardIn(id, Receive(text)) else Parked(m, id)
  {
  }

  lemma ParkingStep(m: Manager, e: MEvent, id: nat)
    requires WellFormed(m)
    ensures Parked(MStep(m, e), id) ==
            if TakesList(m, e, id) then []
            else if id !in m.routes && HeardIn(id, e) != [] && |Parked(m, id)| < MAX_PENDING_CANDIDATES
            then Parked(m, id) + HeardIn(id, e) else Parked(m, id)
  {
    match e {
      case Resume(i, sdp) =>
        if i < |m.tasks| {
          ParkingResume(m, i, sdp, id);
        }
      case Receive(text) => ParkingSignal(m, text, id);
      case _ =>
    }
  }

  // In every run the candidates parked for an id are the first 64 of these.
  lemma {:induction false} ParkedAreFirst64(events: seq<MEvent>, id: nat)
    ensures Parked(MRun(NEW_MANAGER, events), id) == First64(Unclaimed(id, events))
  {
    if events != [] {
      var front, e := events[..|events| - 1], events[|events| - 1];
      ParkedAreFirst64(front, id);
      ParkingStep(MRun(NEW_MANAGER, front), e, id);
    }
  }

  // For an id no session ever had, they are all that was heard for it.
  lemma {:induction false} FirstOfItsId(events: seq<MEvent>, id: nat)
    requires NoSession(MRun(NEW_MANAGER, events), id)
    ensures id !in MRun(NEW_MANAGER, events).routes && Unclaimed(id, events) == HeardFrom(id, events, 0)
  {
    RoutingInvariant(events);
    if events != [] {
      var front, e := events[..|events| - 1], events[|events| - 1];
      var m := MRun(NEW_MANAGER, front);
      forall who | 0 <= who < |m.sessions|
        ensures m.sessions[who].id != id
      {
        IdentitiesKeep(m, e, who);
      }
      FirstOfItsId(front, id);
    }
  }

  // ---- the session created by a request, while its route stands ----

  function Values(texts: seq<string>): seq<string> {
    seq(|texts|, i requires 0 <= i < |texts| => P.CandidateValue(texts[i]))
  }

  function Bag(texts: seq<string>): multiset<string> { multiset(Values(texts)) }

  lemma BagConcat(a: seq<string>, b: seq<string>)
    ensures Bag(a + b) == Bag(a) + Bag(b)
  {
    assert Values(a + b) == Values(a) + Values(b);
  }

  lemma BagOne(text: string)
    ensures Bag([text]) == multiset{P.CandidateValue(text)} && Bag([]) == multiset{}
  {
    assert Values([text]) == [P.CandidateValue(text)];
  }

  predicate Replays(t: Task, who: nat) { t.Replaying? && t.who == who }

  // What the creating handler, suspended in t, will still give to the session.
  function Waiting(m: Manager, t: Task, id: nat): seq<string> {
    match t
    case Replaying(_, rest) => rest
    case Done => []
    case _ => Parked(m, id)
  }

  // Session `who` has the id, and coroutine number `handler` is the only one that replays parked
  // candidates to it.
  ghost predicate Owned(m: Manager, id: nat, who: nat, handler: nat) {
    && who < |m.sessions| && m.sessions[who].id == id && !m.sessions[who].isDialer
    && handler < |m.tasks|
    && (m.tasks[handler].Done? || IsFirst(m.tasks[handler], who) || Replays(m.tasks[handler], who))
    && (forall i :: 0 <= i < |m.tasks| && (IsFirst(m.tasks[i], who) || Replays(m.tasks[i], who)) ==> i == handler)
  }

  ghost function Received(m: Manager, id: nat, who: nat, handler: nat): multiset<string>
    requires Owned(m, id, who, handler)
  {
    multiset(m.sessions[who].ice.arrived) + Bag(Waiting(m, m.tasks[handler], id))
  }

  lemma RouteWasThere(m: Manager, e: MEvent, id: nat, who: nat)
    requires WellFormed(m) && who < |m.sessions|
    requires id in MStep(m, e).routes && MStep(m, e).routes[id] == who
    ensures id in m.routes && m.routes[id] == who
  {
    StepRoutes(m, e);
  }

  lemma StepArrived(s: Session, e: Event)
    ensures Step(s, e).ice.arrived == s.ice.arrived +
            match e
            case CandidateArrived(text) => if s.phase == CLOSED then [] else [P.CandidateValue(text)]
            case AnswerReady(_, _, Some(text)) => [P.CandidateValue(text)]
            case _ => []
  {
    StepIce(s, e);
  }

  lemma HandlerOwns(m: Manager, id: nat, who: nat, handler: nat, sdp: string)
    requires WellFormed(m) && Owned(m, id, who, handler)
    ensures Owned(ResumeTask(m, handler, sdp), id, who, handler)
  {
    var t := m.tasks[handler];
    if !t.Done? {
      ResumeShape(m, handler, sdp);
      var e := EventOf(t, sdp, Parked(m, id));
      if e.Some? {
        StepKeepsIdentity(m.sessions[who], e.value);
      }
    }
  }

  // What the handler gives to the session when it resumes.
  function Handed(m: Manager, t: Task, id: nat): seq<string> {
    if t.Replaying? && t.rest != [] then [t.rest[0]]
    else if t.Answering? && Parked(m, id) != [] then [Parked(m, id)[0]] else []
  }

  lemma HandlerArrived(m: Manager, id: nat, who: nat, handler: nat, sdp: string)
    requires WellFormed(m) && Owned(m, id, who, handler) && !m.tasks[handler].Done?
    requires m.sessions[who].phase != CLOSED
    ensures var t := m.tasks[handler]; var m1 := ResumeTask(m, handler, sdp);
            && who < |m1.sessions|
            && m1.sessions[who].ice.arrived == m.sessions[who].ice.arrived + Values(Handed(m, t, id))
  {
    var t := m.tasks[handler];
    ResumeShape(m, handler, sdp);
    var e := EventOf(t, sdp, Parked(m, id));
    if e.Some? {
      StepArrived(m.sessions[who], e.value);
    }
  }

  lemma HandlerWaits(m: Manager, id: nat, who: nat, handler: nat, sdp: string)
    requires WellFormed(m) && Owned(m, id, who, handler) && !m.tasks[handler].Done?
    requires m.sessions[who].phase != CLOSED
    ensures var t := m.tasks[handler]; var m1 := ResumeTask(m, handler, sdp);
            && handler < |m1.tasks|
            && Waiting(m, t, id) == Handed(m, t, id) + Waiting(m1, m1.tasks[handler], id)
  {
    ResumeShape(m, handler, sdp);
  }

  // What is handed over is no longer held.
  lemma HandOver(arrived: seq<string>, handed: seq<string>, waiting: seq<string>)
    ensures multiset(arrived + Values(handed)) + Bag(waiting) == multiset(arrived) + Bag(handed + waiting)
  {
    BagConcat(handed, waiting);
  }

  // The handler itself resumes.
  lemma HandlerStep(m: Manager, id: nat, who: nat, handler: nat, sdp: string)
    requires WellFormed(m) && Owned(m, id, who, handler) && m.sessions[who].phase != CLOSED
    ensures var m1 := ResumeTask(m, handler, sdp);
            Owned(m1, id, who, handler) && Received(m1, id, who, handler) == Received(m, id, who, handler)
  {
    var t, m1 := m.tasks[handler], ResumeTask(m, handler, sdp);
    HandlerOwns(m, id, who, handler, sdp);
    if t.Done? {
      assert m1 == m;
    } else {
      HandlerWaits(m, id, who, handler, sdp);
      HandlerArrived(m, id, who, handler, sdp);
      HandOver(m.sessions[who].ice.arrived, Handed(m, t, id), Waiting(m1, m1.tasks[handler], id));
    }
  }

  // Coroutine number `handler` is unchanged, and no other one replays to the session.
  predicate OnlyHandler(before: seq<Task>, after: seq<Task>, who: nat, handler: nat) {
    && handler < |before| && handler < |after| && after[handler] == before[handler]
    && (forall i :: 0 <= i < |after| && (IsFirst(after[i], who) || Replays(after[i], who)) ==> i == handler)
  }

  lemma HandlerAfterResume(tasks: seq<Task>, who: nat, handler: nat, i: nat, t: Task, next: Task)
    requires OnlyHandler(tasks, tasks, who, handler) && i < |tasks| && i != handler && tasks[i] == t
    requires IsFirst(next, who) || Replays(next, who) ==> IsFirst(t, who) || Replays(t, who)
    ensures OnlyHandler(tasks, tasks[i := next], who, handler)
  {
  }

  lemma HandlerAfterSpawn(tasks: seq<Task>, who: nat, handler: nat, more: seq<Task>)
    requires OnlyHandler(tasks, tasks, who, handler)
    requires forall t :: t in more ==> !IsFirst(t, who) && !Replays(t, who)
    ensures OnlyHandler(tasks, tasks + more, who, handler)
  {
    assert forall i :: |tasks| <= i < |tasks + more| ==> (tasks + more)[i] in more;
  }

  // Replaying goes on from replaying, or from a first answer.
  lemma NextReplays(t: Task, s: Session, parked: seq<string>, who: nat)
    requires !t.Done?
    ensures var next := NextTask(t, s, parked);
            IsFirst(next, who) || Replays(next, who) ==> IsFirst(t, who) || Replays(t, who)
  {
  }

  lemma SpawnedForOthers(m: Manager, e: MEvent, who: nat)
    requires WellFormed(m) && who < |m.sessions|
    ensures forall t :: t in Spawned(m, e) ==> !IsFirst(t, who) && !Replays(t, who)
  {
  }

  lemma HandlerKept(m: Manager, e: MEvent, id: nat, who: nat, handler: nat)
    requires WellFormed(m) && Owned(m, id, who, handler)
    requires !(e.Resume? && e.task == handler)
    ensures OnlyHandler(m.tasks, MStep(m, e).tasks, who, handler)
  {
    StepTasks(m, e);
    if Routing.Resumes(m, e) {
      var t := m.tasks[e.task];
      var s := m.sessions[t.who];
      NextReplays(t, s, Parked(m, s.id), who);
      HandlerAfterResume(m.tasks, who, handler, e.task, t, NextTask(t, s, Parked(m, s.id)));
    } else {
      SpawnedForOthers(m, e, who);
      HandlerAfterSpawn(m.tasks, who, handler, Spawned(m, e));
    }
  }

  lemma OtherOwns(m: Manager, e: MEvent, id: nat, who: nat, handler: nat)
    requires WellFormed(m) && Owned(m, id, who, handler)
    requires id in m.routes && m.routes[id] == who
    requires id in MStep(m, e).routes && MStep(m, e).routes[id] == who
    requires !(e.Resume? && e.task == handler)
    ensures Owned(MStep(m, e), id, who, handler)
  {
    HandlerKept(m, e, id, who, handler);
    IdentitiesKeep(m, e, who);
  }

  // Another handler takes the list the session's own handler was to replay.
  predicate Steals(m: Manager, e: MEvent, id: nat, handler: nat)
    requires WellFormed(m)
  {
    TakesList(m, e, id) && e.task != handler && Parked(m, id) != []
  }

  // As long as something is parked, the handler has not taken the list.
  lemma HandlerIsAhead(m: Manager, id: nat, who: nat, handler: nat)
    requires RoutingOk(m) && Owned(m, id, who, handler)
    requires id in m.routes && m.routes[id] == who && Parked(m, id) != []
    ensures IsFirst(m.tasks[handler], who) && Waiting(m, m.tasks[handler], id) == Parked(m, id)
  {
    assert ReplayAhead(m, who);
    var i :| 0 <= i < |m.tasks| && IsFirst(m.tasks[i], who);
    assert i == handler;
  }

  // Any step but the handler's own: the session receives exactly what is heard for its id, and
  // loses what another handler takes.
  lemma OtherStep(m: Manager, e: MEvent, id: nat, who: nat, handler: nat)
    requires RoutingOk(m) && Owned(m, id, who, handler)
    requires id in m.routes && m.routes[id] == who
    requires id in MStep(m, e).routes && MStep(m, e).routes[id] == who
    requires !(e.Resume? && e.task == handler)
    ensures var m1 := MStep(m, e);
            && Owned(m1, id, who, handler)
            && Received(m1, id, who, handler) + (if Steals(m, e, id, handler) then Bag(Parked(m, id)) else multiset{})
               == Received(m, id, who, handler) + Bag(HeardIn(id, e))
  {
    OtherOwns(m, e, id, who, handler);
    HandlerKept(m, e, id, who, handler);
    ParkingStep(m, e, id);
    ArrivedStep(m, e, id, who, handler);
    BagOne("");
    if Steals(m, e, id, handler) {
      HandlerIsAhead(m, id, who, handler);
    }
  }

  // The books of a session that is owed these texts: balanced as long as nothing was taken from
  // it, and short of at least one candidate ever after.
  ghost predicate Books(m: Manager, id: nat, who: nat, handler: nat, texts: seq<string>, balanced: bool) {
    && Owned(m, id, who, handler)
    && if balanced then Received(m, id, who, handler) == Bag(texts)
       else |Received(m, id, who, handler)| < |texts|
  }

  lemma BagSize(texts: seq<string>)
    ensures |Bag(texts)| == |texts|
  {
  }

  lemma Tally(received: multiset<string>, after: multiset<string>, texts: seq<string>, heard: seq<string>,
              taken: seq<string>, balanced: bool, steals: bool)
    requires if balanced then received == Bag(texts) else |received| < |texts|
    requires after + (if steals then Bag(taken) else multiset{}) == received + Bag(heard)
    requires steals ==> taken != []
    ensures if balanced && !steals then after == Bag(texts + heard) else |after| < |texts + heard|
  {
    BagConcat(texts, heard);
    BagSize(texts);
    BagSize(heard);
    BagSize(taken);
    var lost := if steals then Bag(taken) else multiset{};
    assert |after + lost| == |after| + |lost| && |received + Bag(heard)| == |received| + |Bag(heard)|;
  }

  lemma StepBooks(m: Manager, e: MEvent, id: nat, who: nat, handler: nat, texts: seq<string>, balanced: bool)
    requires RoutingOk(m) && Books(m, id, who, handler, texts, balanced)
    requires id in m.routes && m.routes[id] == who
    requires id in MStep(m, e).routes && MStep(m, e).routes[id] == who
    ensures Books(MStep(m, e), id, who, handler, texts + HeardIn(id, e), balanced && !Steals(m, e, id, handler))
  {
    if e.Resume? && e.task == handler {
      HandlerStep(m, id, who, handler, e.sdp);
      assert texts + [] == texts;
    } else {
      OtherStep(m, e, id, who, handler);
      Tally(Received(m, id, who, handler), Received(MStep(m, e), id, who, handler), texts, HeardIn(id, e),
            Parked(m, id), balanced, Steals(m, e, id, handler));
    }
  }

  lemma ArrivedStep(m: Manager, e: MEvent, id: nat, who: nat, handler: nat)
    requires RoutingOk(m) && Owned(m, id, who, handler)
    requires id in m.routes && m.routes[id] == who
    requires !(e.Resume? && e.task == handler)
    ensures var m1 := MStep(m, e);
            who < |m1.sessions| && m1.sessions[who].ice.arrived == m.sessions[who].ice.arrived + Values(HeardIn(id, e))
  {
    StepTouchesOneSession(m, e);
    var effect := EffectOf(m, e);
    if effect.Touches? && effect.who == who {
      StepArrived(m.sessions[who], effect.e);
    }
  }

  // Event number n is the request that creates the session for the id.
  predicate CreatedBy(events: seq<MEvent>, n: nat, id: nat) {
    && n < |events| && events[n].Receive?
    && S.Parse(events[n].text).Some? && S.Parse(events[n].text).value.ConnectRequest?
    && S.Parse(events[n].text).value.id == id
    && id !in MRun(NEW_MANAGER, events[..n]).routes
  }

  lemma RouteStood(events: seq<MEvent>, n: nat, id: nat)
    requires CreatedBy(events, n, id) && |events| > n + 1
    requires var m0, m := MRun(NEW_MANAGER, events[..n]), MRun(NEW_MANAGER, events);
             id in m.routes && m.routes[id] == |m0.sessions|
    ensures var m0, m := MRun(NEW_MANAGER, events[..n]), MRun(NEW_MANAGER, events[..|events| - 1]);
            id in m.routes && m.routes[id] == |m0.sessions|
  {
    var front := events[..|events| - 1];
    assert front[..n] == events[..n] && front[n] == events[n];
    SessionsGrow(front, n, id);
    RouteWasThere(MRun(NEW_MANAGER, front), events[|events| - 1], id, |MRun(NEW_MANAGER, events[..n]).sessions|);
  }

  // What a listener created by event number n is owed.
  function Owed(id: nat, events: seq<MEvent>, n: nat): seq<string>
    requires n <= |events|
  {
    First64(Unclaimed(id, events[..n])) + HeardFrom(id, events, n)
  }

  lemma OwedMore(id: nat, events: seq<MEvent>, n: nat)
    requires n < |events| - 1
    ensures Owed(id, events, n) == Owed(id, events[..|events| - 1], n) + HeardIn(id, events[|events| - 1])
  {
    assert events[..|events| - 1][..n] == events[..n];
  }

  lemma ListenerBorn(events: seq<MEvent>, n: nat, id: nat)
    requires CreatedBy(events, n, id) && |events| == n + 1
    ensures var m0, m := MRun(NEW_MANAGER, events[..n]), MRun(NEW_MANAGER, events);
            Books(m, id, |m0.sessions|, |m0.tasks|, Owed(id, events, n), true)
  {
    RoutingInvariant(events[..n]);
    ParkedAreFirst64(events[..n], id);
    BirthStep(MRun(NEW_MANAGER, events[..n]), events[n], id);
    assert events[..|events| - 1] == events[..n];
    assert HeardFrom(id, events, n) == [];
    assert Owed(id, events, n) == First64(Unclaimed(id, events[..n]));
  }

  // Since event number n no other handler took a list that was not empty.
  predicate NoTheft(events: seq<MEvent>, n: nat, id: nat, handler: nat)
    requires n < |events|
  {
    |events| > n + 1 ==>
      && NoTheft(events[..|events| - 1], n, id, handler)
      && !Steals(MRun(NEW_MANAGER, events[..|events| - 1]), events[|events| - 1], id, handler)
  }

  // The books of a listener from the request that creates it to any later event at which its
  // id still routes to it.
  lemma {:induction false} ListenerReceives(events: seq<MEvent>, n: nat, id: nat)
    requires CreatedBy(events, n, id)
    requires var m0, m := MRun(NEW_MANAGER, events[..n]), MRun(NEW_MANAGER, events);
             id in m.routes && m.routes[id] == |m0.sessions|
    ensures var m0, m := MRun(NEW_MANAGER, events[..n]), MRun(NEW_MANAGER, events);
            Books(m, id, |m0.sessions|, |m0.tasks|, Owed(id, events, n), NoTheft(events, n, id, |m0.tasks|))
    decreases |events|
  {
    if |events| == n + 1 {
      ListenerBorn(events, n, id);
    } else {
      var m0 := MRun(NEW_MANAGER, events[..n]);
      var front := events[..|events| - 1];
      assert front[..n] == events[..n] && front[n] == events[n];
      RoutingInvariant(front);
      RouteStood(events, n, id);
      ListenerReceives(front, n, id);
      OwedMore(id, events, n);
      StepBooks(MRun(NEW_MANAGER, front), events[|events| - 1], id, |m0.sessions|, |m0.tasks|, Owed(id, front, n),
                NoTheft(front, n, id, |m0.tasks|));
    }
  }

  lemma {:induction false} SessionsGrow(events: seq<MEvent>, n: nat, id: nat)
    requires CreatedBy(events, n, id) && id !in MRun(NEW_MANAGER, events[..n]).routes
    ensures |MRun(NEW_MANAGER, events).sessions| > |MRun(NEW_MANAGER, events[..n]).sessions|
  {
    var front, e := events[..|events| - 1], events[|events| - 1];
    StepTouchesOneSession(MRun(NEW_MANAGER, front), e);
    if |front| == n {
      assert front == events[..n];
    } else {
      assert front[..n] == events[..n] && front[n] == events[n];
      SessionsGrow(front, n, id);
    }
  }

  // The request creates the session and the coroutine that owns its parked candidates.
  lemma BirthStep(m: Manager, e: MEvent, id: nat)
    requires RoutingOk(m) && id !in m.routes
    requires e.Receive? && S.Parse(e.text).Some? && S.Parse(e.text).value.ConnectRequest?
    requires S.Parse(e.text).value.id == id
    ensures Books(MStep(m, e), id, |m.sessions|, |m.tasks|, Parked(m, id), true)
  {
    var m1 := MStep(m, e);
    assert m1.tasks == m.tasks + [ApplyingOffer(|m.sessions|, S.Parse(e.text).value.sdp, true)];
    assert m1.sessions == m.sessions + [Fresh(id, false)];
  }

  // ---- when flushes cannot overlap ----

  // A coroutine of the session that applies, or is flushing after, a remote description.
  predicate Describes(t: Task, who: nat) {
    !t.Done? && t.who == who && (t.ApplyingOffer? || t.ApplyingAnswer? || t.Flushing?)
  }

  predicate OneDescriber(m: Manager, who: nat) {
    forall i, j :: 0 <= i < |m.tasks| && 0 <= j < |m.tasks| && Describes(m.tasks[i], who) && Describes(m.tasks[j], who)
      ==> i == j
  }

  // A request or answer reaches the session's guard while a description is still being applied.
  predicate SecondDescription(m: Manager, e: MEvent, who: nat)
    requires WellFormed(m)
  {
    && |MStep(m, e).tasks| > |m.tasks| && Describes(MStep(m, e).tasks[|m.tasks|], who)
    && exists i :: 0 <= i < |m.tasks| && Describes(m.tasks[i], who)
  }

  predicate HandledOnce(events: seq<MEvent>, who: nat) {
    events != [] ==>
      && HandledOnce(events[..|events| - 1], who)
      && !SecondDescription(MRun(NEW_MANAGER, events[..|events| - 1]), events[|events| - 1], who)
  }

  predicate OneOf(tasks: seq<Task>, who: nat) {
    forall i, j :: 0 <= i < |tasks| && 0 <= j < |tasks| && Describes(tasks[i], who) && Describes(tasks[j], who)
      ==> i == j
  }

  lemma DescriberAfterResume(tasks: seq<Task>, who: nat, i: nat, next: Task)
    requires OneOf(tasks, who) && i < |tasks| && (Describes(next, who) ==> Describes(tasks[i], who))
    ensures OneOf(tasks[i := next], who)
  {
  }

  lemma DescriberAfterSpawn(tasks: seq<Task>, who: nat, t: Task)
    requires OneOf(tasks, who)
    requires Describes(t, who) ==> forall i :: 0 <= i < |tasks| ==> !Describes(tasks[i], who)
    ensures OneOf(tasks + [t], who)
  {
  }

  lemma NextDescribes(t: Task, s: Session, parked: seq<string>, who: nat)
    requires !t.Done?
    ensures Describes(NextTask(t, s, parked), who) ==> Describes(t, who)
  {
  }

  lemma DescriberStep(m: Manager, e: MEvent, who: nat)
    requires WellFormed(m) && OneDescriber(m, who) && !SecondDescription(m, e, who)
    ensures OneDescriber(MStep(m, e), who)
  {
    StepTasks(m, e);
    assert OneOf(m.tasks, who);
    if Routing.Resumes(m, e) {
      var t := m.tasks[e.task];
      var s := m.sessions[t.who];
      NextDescribes(t, s, Parked(m, s.id), who);
      DescriberAfterResume(m.tasks, who, e.task, NextTask(t, s, Parked(m, s.id)));
    } else {
      SpawnedKind(m, e);
      if Spawned(m, e) != [] {
        assert Spawned(m, e) == [Spawned(m, e)[0]];
        DescriberAfterSpawn(m.tasks, who, Spawned(m, e)[0]);
      } else {
        assert m.tasks + [] == m.tasks;
      }
    }
    assert OneOf(MStep(m, e).tasks, who);
  }

  lemma OnlySpawns(m: Manager, e: MEvent)
    requires WellFormed(m)
    requires e.Resume? && e.task < |m.tasks| ==> m.tasks[e.task].Done?
    ensures var m1 := MStep(m, e);
            m1.tasks == m.tasks || (|m1.tasks| == |m.tasks| + 1 && m1.tasks[..|m.tasks|] == m.tasks)
  {
    StepTasks(m, e);
    assert |Spawned(m, e)| <= 1;
  }

  lemma {:induction false} OneDescriberAtATime(events: seq<MEvent>, who: nat)
    requires HandledOnce(events, who)
    ensures OneDescriber(MRun(NEW_MANAGER, events), who) && NoOverlap(events, who)
  {
    if events != [] {
      var m, e := MRun(NEW_MANAGER, events[..|events| - 1]), events[|events| - 1];
      OneDescriberAtATime(events[..|events| - 1], who);
      DescriberStep(m, e, who);
    }
  }

  // The session's coroutines have run to their ends.
  predicate Settled(m: Manager, who: nat) {
    forall i :: 0 <= i < |m.tasks| && !m.tasks[i].Done? ==> m.tasks[i].who != who
  }

  // No handler that created another session with the id is still on its way to the list.
  predicate SoleHandler(m: Manager, id: nat, handler: nat)
    requires WellFormed(m)
  {
    forall i :: 0 <= i < |m.tasks| && i != handler && !m.tasks[i].Done? && IsFirst(m.tasks[i], m.tasks[i].who) ==>
      m.sessions[m.tasks[i].who].id != id
  }

  lemma SoleHandlerStep(m: Manager, e: MEvent, id: nat, handler: nat)
    requires WellFormed(m) && WellFormed(MStep(m, e)) && id in m.routes && SoleHandler(m, id, handler)
    ensures SoleHandler(MStep(m, e), id, handler)
  {
    var m1 := MStep(m, e);
    forall i | 0 <= i < |m1.tasks| && i != handler && !m1.tasks[i].Done? && IsFirst(m1.tasks[i], m1.tasks[i].who)
      ensures m1.sessions[m1.tasks[i].who].id != id
    {
      FirstWasThere(m, e, i);
      if i < |m.tasks| {
        IdentitiesKeep(m, e, m.tasks[i].who);
      }
    }
  }

  lemma NewFirst(m: Manager, e: MEvent)
    requires WellFormed(m) && WellFormed(MStep(m, e)) && |MStep(m, e).tasks| == |m.tasks| + 1
    requires var t := MStep(m, e).tasks[|m.tasks|]; !t.Done? && IsFirst(t, t.who)
    ensures MStep(m, e).sessions[MStep(m, e).tasks[|m.tasks|].who].id !in m.routes
  {
  }

  // A creating handler was on its way before, or its session is new and its id was not routed.
  lemma FirstWasThere(m: Manager, e: MEvent, i: nat)
    requires WellFormed(m) && WellFormed(MStep(m, e)) && i < |MStep(m, e).tasks|
    requires var t := MStep(m, e).tasks[i]; !t.Done? && IsFirst(t, t.who)
    ensures var t := MStep(m, e).tasks[i];
            if i < |m.tasks| then !m.tasks[i].Done? && m.tasks[i].who == t.who && IsFirst(m.tasks[i], t.who)
            else MStep(m, e).sessions[t.who].id !in m.routes
  {
    if e.Resume? && e.task < |m.tasks| && !m.tasks[e.task].Done? {
      ResumeShape(m, e.task, e.sdp);
    } else {
      OnlySpawns(m, e);
      if i == |m.tasks| {
        NewFirst(m, e);
      } else {
        assert MStep(m, e).tasks[i] == m.tasks[i];
      }
    }
  }

  lemma SoleAtBirth(m: Manager, e: MEvent, id: nat)
    requires RoutingOk(m) && id !in m.routes && SoleHandler(m, id, |m.tasks|)
    requires e.Receive? && S.Parse(e.text).Some? && S.Parse(e.text).value.ConnectRequest?
    requires S.Parse(e.text).value.id == id
    ensures WellFormed(MStep(m, e)) && SoleHandler(MStep(m, e), id, |m.tasks|)
  {
    MStepWellFormed(m, e);
    StepTasks(m, e);
    StepTouchesOneSession(m, e);
  }

  lemma {:induction false} SoleHandlerNoTheft(events: seq<MEvent>, n: nat, id: nat)
    requires CreatedBy(events, n, id)
    requires var m0, m := MRun(NEW_MANAGER, events[..n]), MRun(NEW_MANAGER, events);
             && id in m.routes && m.routes[id] == |m0.sessions| && SoleHandler(m0, id, |m0.tasks|)
    ensures var m0, m := MRun(NEW_MANAGER, events[..n]), MRun(NEW_MANAGER, events);
            SoleHandler(m, id, |m0.tasks|) && NoTheft(events, n, id, |m0.tasks|)
    decreases |events|
  {
    var m0, front := MRun(NEW_MANAGER, events[..n]), events[..|events| - 1];
    if |events| == n + 1 {
      assert front == events[..n];
      RoutingInvariant(events[..n]);
      SoleAtBirth(m0, events[n], id);
    } else {
      assert front[..n] == events[..n] && front[n] == events[n];
      RouteStood(events, n, id);
      SoleHandlerNoTheft(front, n, id);
      SoleHandlerStep(MRun(NEW_MANAGER, front), events[|events| - 1], id, |m0.tasks|);
    }
  }

  lemma BooksSettle(m: Manager, id: nat, who: nat, handler: nat, texts: seq<string>, balanced: bool)
    requires Books(m, id, who, handler, texts, balanced) && Settled(m, who)
    ensures var arrived := m.sessions[who].ice.arrived;
            if balanced then multiset(arrived) == Bag(texts) else |arrived| < |texts|
  {
    assert m.tasks[handler].Done?;
    BagOne("");
    assert |multiset(m.sessions[who].ice.arrived)| == |m.sessions[who].ice.arrived|;
  }

  // What a listener whose coroutines have finished received.
  lemma SettledBooks(events: seq<MEvent>, n: nat, id: nat)
    requires CreatedBy(events, n, id)
    requires var m0, m := MRun(NEW_MANAGER, events[..n]), MRun(NEW_MANAGER, events);
             && id in m.routes && m.routes[id] == |m0.sessions| < |m.sessions| && Settled(m, |m0.sessions|)
    ensures var m0, m := MRun(NEW_MANAGER, events[..n]), MRun(NEW_MANAGER, events);
            var arrived := m.sessions[|m0.sessions|].ice.arrived;
            if NoTheft(events, n, id, |m0.tasks|) then multiset(arrived) == Bag(Owed(id, events, n))
            else |arrived| < |Owed(id, events, n)|
  {
    var m0, m := MRun(NEW_MANAGER, events[..n]), MRun(NEW_MANAGER, events);
    ListenerReceives(events, n, id);
    BooksSettle(m, id, |m0.sessions|, |m0.tasks|, Owed(id, events, n), NoTheft(events, n, id, |m0.tasks|));
  }

  lemma NoFlushLeft(m: Manager, who: nat)
    requires Settled(m, who)
    ensures !FlushActive(m.tasks, who)
  {
  }

  lemma BothWays(arrived: seq<string>, applied: seq<string>, owed: seq<string>, noTheft: bool, noOverlap: bool)
    requires if noTheft then multiset(arrived) == Bag(owed) else |arrived| < |owed|
    requires multiset(applied) == multiset(arrived) <==> noOverlap
    ensures multiset(arrived) == Bag(owed) && multiset(applied) == multiset(arrived) <==> noTheft && noOverlap
    ensures noOverlap ==> (multiset(applied) == Bag(owed) <==> noTheft)
    ensures noTheft ==> (multiset(applied) == Bag(owed) <==> noOverlap)
  {
    BagSize(owed);
    assert |multiset(arrived)| == |arrived|;
  }

  // The listener theorem, for any listener whose id still routes to it and whose coroutines have
  // finished. It is owed the first 64 unclaimed candidates from before its request and all heard
  // since. Each of these reached it once and was applied once if and only if no other handler
  // took its parked list and no two flushes overlapped; and when only one of the two can go
  // wrong, what it applied is what it was owed exactly when that did not. (A list taken and a
  // candidate doubled can make up for each other when two texts are the same: see the runs in
  // Races.)
  lemma ListenerAppliesWhatWasHeard(events: seq<MEvent>, n: nat, id: nat)
    requires CreatedBy(events, n, id)
    requires var m0, m := MRun(NEW_MANAGER, events[..n]), MRun(NEW_MANAGER, events);
             && id in m.routes && m.routes[id] == |m0.sessions|
             && |m0.sessions| < |m.sessions| && Settled(m, |m0.sessions|) && m.sessions[|m0.sessions|].ice.remotes != []
    ensures var m0, m := MRun(NEW_MANAGER, events[..n]), MRun(NEW_MANAGER, events);
            var who, noTheft := |m0.sessions|, NoTheft(events, n, id, |m0.tasks|);
            var ice, owed := m.sessions[who].ice, Bag(Owed(id, events, n));
            && (multiset(ice.arrived) == owed && multiset(ice.applied) == multiset(ice.arrived)
                <==> noTheft && NoOverlap(events, who))
            && (NoOverlap(events, who) ==> (multiset(ice.applied) == owed <==> noTheft))
            && (noTheft ==> (multiset(ice.applied) == owed <==> NoOverlap(events, who)))
  {
    var m0, m := MRun(NEW_MANAGER, events[..n]), MRun(NEW_MANAGER, events);
    SettledBooks(events, n, id);
    NoFlushLeft(m, |m0.sessions|);
    ConservationIff(events, |m0.sessions|);
    var ice := m.sessions[|m0.sessions|].ice;
    BothWays(ice.arrived, ice.applied, Owed(id, events, n), NoTheft(events, n, id, |m0.tasks|),
             NoOverlap(events, |m0.sessions|));
  }

  lemma {:induction false} CreatedKeepsId(events: seq<MEvent>, n: nat, id: nat)
    requires CreatedBy(events, n, id)
    ensures var who, m := |MRun(NEW_MANAGER, events[..n]).sessions|, MRun(NEW_MANAGER, events);
            who < |m.sessions| && m.sessions[who].id == id
  {
    var front, who := events[..|events| - 1], |MRun(NEW_MANAGER, events[..n]).sessions|;
    if |front| == n {
      assert front == events[..n];
      StepTouchesOneSession(MRun(NEW_MANAGER, front), events[n]);
    } else {
      assert front[..n] == events[..n] && front[n] == events[n];
      CreatedKeepsId(front, n, id);
      IdentitiesKeep(MRun(NEW_MANAGER, front), events[|events| - 1], who);
    }
  }

  // The route these results ask for is there for every listener that is not closed, in every run
  // in which no state is written over a close and no new dialer gets an id in use.
  lemma LivingListenerIsMapped(events: seq<MEvent>, n: nat, id: nat)
    requires CreatedBy(events, n, id) && NoneDislodges(events)
    ensures var who, m := |MRun(NEW_MANAGER, events[..n]).sessions|, MRun(NEW_MANAGER, events);
            && who < |m.sessions|
            && (m.sessions[who].phase != CLOSED ==> id in m.routes && m.routes[id] == who)
  {
    CreatedKeepsId(events, n, id);
    LiveMappedIff(events);
    var who, m := |MRun(NEW_MANAGER, events[..n]).sessions|, MRun(NEW_MANAGER, events);
    if m.sessions[who].phase != CLOSED {
      assert Mapped(m, who);
    }
  }

  // Nothing goes wrong for a listener created while no other handler for its id is on its way,
  // and handling one request at a time.
  lemma OneHandlerIsEnough(events: seq<MEvent>, n: nat, id: nat)
    requires CreatedBy(events, n, id)
    requires var m0, m := MRun(NEW_MANAGER, events[..n]), MRun(NEW_MANAGER, events);
             && id in m.routes && m.routes[id] == |m0.sessions| && |m0.sessions| < |m.sessions|
             && Settled(m, |m0.sessions|) && m.sessions[|m0.sessions|].ice.remotes != []
             && SoleHandler(m0, id, |m0.tasks|) && HandledOnce(events, |m0.sessions|)
    ensures var m0, m := MRun(NEW_MANAGER, events[..n]), MRun(NEW_MANAGER, events);
            multiset(m.sessions[|m0.sessions|].ice.applied) == Bag(Owed(id, events, n))
  {
    SoleHandlerNoTheft(events, n, id);
    OneDescriberAtATime(events, |MRun(NEW_MANAGER, events[..n]).sessions|);
    ListenerAppliesWhatWasHeard(events, n, id);
  }
}
