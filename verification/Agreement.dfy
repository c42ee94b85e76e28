// Many managers over a network that may lose, repeat, reorder and misdeliver every signaling text,
// and cuts those too long for a datagram: who answered whom.
module Agreement {
  import opened Basics
  import E = SdpEdits
  import L = Lan
  import P = PeerConnections
  import S = Signaling
  import opened Sessions
  import opened Managers
  import opened Routing
  import A = Arrivals
  import opened Conservation

  type World = seq<Manager>

  // ---- what one manager keeps about each of its sessions ----

  predicate Pending(t: Task, who: nat) { !t.Done? && t.who == who }

  // The signaling a session has sent so far.
  ghost predicate SentOk(s: Session) {
    && s.id <= U64_MAX
    && (forall m :: m in s.sent ==> m.id == s.id)
    && (forall m :: m in s.sent && m.ConnectRequest? ==> s.isDialer)
    && (forall m :: m in s.sent && m.ConnectResponse? ==> !s.isDialer && s.ice.remotes != [])
    && (forall m, m' :: m in s.sent && m' in s.sent && m.ConnectRequest? && m'.ConnectRequest? ==> m == m')
  }

  predicate NoRequest(s: Session) { forall m :: m in s.sent ==> !m.ConnectRequest? }

  predicate Offers(t: Task, who: nat) { t.Offering? && t.who == who }

  predicate AppliesAnswer(t: Task, who: nat) { t.ApplyingAnswer? && t.who == who }

  predicate AfterDescription(t: Task, who: nat) { (t.Answering? || t.Flushing?) && t.who == who }

  predicate AnswerPending(tasks: seq<Task>, who: nat) {
    exists i :: 0 <= i < |tasks| && AppliesAnswer(tasks[i], who)
  }

  predicate AtMostOne(tasks: seq<Task>, p: Task -> bool) {
    forall i, j :: 0 <= i < |tasks| && 0 <= j < |tasks| && p(tasks[i]) && p(tasks[j]) ==> i == j
  }

  // The suspended coroutines of a session, and what they rule out.
  ghost predicate TasksOk(s: Session, tasks: seq<Task>, who: nat) {
    && AtMostOne(tasks, t => Offers(t, who))
    && AtMostOne(tasks, t => AppliesAnswer(t, who))
    && (forall i :: 0 <= i < |tasks| && Offers(tasks[i], who) ==>
          && s.phase != OFFER_SENT && s.phase != NEGOTIATING && NoRequest(s) && s.ice.remotes == []
          && !AnswerPending(tasks, who))
    && (!s.isDialer ==> forall i :: 0 <= i < |tasks| ==> !Offers(tasks[i], who) && !AppliesAnswer(tasks[i], who))
    && (AnswerPending(tasks, who) ==> s.phase != OFFER_SENT && s.ice.remotes == [])
    && (forall i :: 0 <= i < |tasks| && AfterDescription(tasks[i], who) ==> s.ice.remotes != [])
    && (s.isDialer && s.phase == OFFER_SENT ==> s.ice.remotes == [])
    && (s.isDialer ==> |s.ice.remotes| <= 1)
  }

  ghost predicate LocalOk(m: Manager, who: nat)
    requires who < |m.sessions|
  {
    SentOk(m.sessions[who]) && TasksOk(m.sessions[who], m.tasks, who)
  }

  lemma TrickleIsCandidates(id: nat, candidates: seq<string>)
    ensures forall m :: m in Trickle(id, candidates) ==> m.CandidateAdd? && m.id == id
  {
  }

  // The messages an event adds: one request or response with its candidates, or one error.
  lemma SentGrows(s: Session, e: Event)
    ensures s.sent <= Step(s, e).sent
    ensures forall m :: m in Step(s, e).sent && m !in s.sent ==>
              && m.id == s.id
              && (m.ConnectRequest? ==> e.OfferReady? && m == S.ConnectRequest(s.id, E.WithoutCandidates(e.sdp)))
              && (m.ConnectResponse? ==> e.AnswerReady?)
  {
    if e.OfferReady? || e.AnswerReady? {
      TrickleIsCandidates(s.id, E.Candidates(e.sdp));
    }
  }

  lemma RemotesGrow(s: Session, e: Event)
    ensures Step(s, e).ice.remotes == if e.Described? then s.ice.remotes + [e.sdp] else s.ice.remotes
  {
    StepIce(s, e);
  }

  lemma SentStep(s: Session, e: Event)
    requires SentOk(s) && FitsRole(s.isDialer, e)
    requires e.OfferReady? ==> NoRequest(s)
    requires e.AnswerReady? ==> s.ice.remotes != []
    ensures SentOk(Step(s, e))
  {
    SentGrows(s, e);
    RemotesGrow(s, e);
    StepKeepsIdentity(s, e);
  }

  // The phase after an event that is neither late nor an arriving answer.
  lemma PhaseStep(s: Session, e: Event)
    requires !IsLate(e)
    ensures Step(s, e).phase == OFFER_SENT ==> s.phase == OFFER_SENT && !e.AnswerArrived?
    ensures Step(s, e).phase == NEGOTIATING ==> s.phase == NEGOTIATING || e.AnswerArrived?
  {
  }

  // An event that is no late write, no remote description and no arriving answer.
  lemma QuietTasks(s: Session, e: Event, tasks: seq<Task>, who: nat)
    requires TasksOk(s, tasks, who) && !IsLate(e) && !e.Described? && !e.AnswerArrived?
    ensures TasksOk(Step(s, e), tasks, who)
  {
    PhaseStep(s, e);
    RemotesGrow(s, e);
    StepKeepsIdentity(s, e);
    SentGrows(s, e);
  }

  // The same coroutines of the session, apart from finished ones.
  predicate FewerTasks(before: seq<Task>, after: seq<Task>, who: nat) {
    && |before| <= |after|
    && (forall i :: 0 <= i < |before| ==> before[i] == after[i] || !Pending(after[i], who) || after[i].Replaying?)
    && (forall i :: |before| <= i < |after| ==> !Pending(after[i], who) || after[i].ApplyingOffer?)
  }

  lemma FewerTasksOk(s: Session, before: seq<Task>, after: seq<Task>, who: nat)
    requires TasksOk(s, before, who) && FewerTasks(before, after, who)
    ensures TasksOk(s, after, who)
  {
  }

  lemma AnswerTasks(s: Session, tasks: seq<Task>, who: nat, sdp: string)
    requires TasksOk(s, tasks, who) && s.isDialer && s.phase == OFFER_SENT
    ensures TasksOk(Step(s, AnswerArrived), tasks + [ApplyingAnswer(who, sdp)], who)
  {
  }

  lemma ResumeLocal(m: Manager, i: nat, sdp: string)
    requires WellFormed(m) && i < |m.tasks| && !m.tasks[i].Done? && LocalOk(m, m.tasks[i].who)
    ensures |ResumeTask(m, i, sdp).sessions| == |m.sessions| && LocalOk(ResumeTask(m, i, sdp), m.tasks[i].who)
  {
    var t := m.tasks[i];
    var who, s := t.who, m.sessions[t.who];
    var parked := Parked(m, s.id);
    var next := NextTask(t, s, parked);
    ResumeShape(m, i, sdp);
    if EventOf(t, sdp, parked).Some? {
      SentStep(s, EventOf(t, sdp, parked).value);
    }
    ResumeTasks(s, m.tasks, i, next, sdp, parked);
  }

  // The one offer is ready.
  lemma OfferTasks(s: Session, tasks: seq<Task>, i: nat, sdp: string)
    requires i < |tasks| && tasks[i].Offering? && s.isDialer && TasksOk(s, tasks, tasks[i].who)
    ensures TasksOk(Step(s, OfferReady(sdp, true)), tasks[i := Done], tasks[i].who)
  {
    var after, who := tasks[i := Done], tasks[i].who;
    assert Offers(tasks[i], who);
    assert forall j :: 0 <= j < |after| ==> !Offers(after[j], who);
    assert forall j :: 0 <= j < |after| ==> (AppliesAnswer(after[j], who) ==> AppliesAnswer(tasks[j], who));
  }

  // The one answer is applied.
  lemma AppliedTasks(s: Session, tasks: seq<Task>, i: nat, next: Task, answer: string)
    requires i < |tasks| && tasks[i].ApplyingAnswer? && s.isDialer && TasksOk(s, tasks, tasks[i].who)
    requires next.Done? || (next.Flushing? && next.who == tasks[i].who)
    ensures TasksOk(Step(s, Described(answer)), tasks[i := next], tasks[i].who)
  {
    var after, who := tasks[i := next], tasks[i].who;
    RemotesGrow(s, Described(answer));
    assert AppliesAnswer(tasks[i], who);
    assert forall j :: 0 <= j < |after| ==> !AppliesAnswer(after[j], who);
  }

  lemma ResumeTasks(s: Session, tasks: seq<Task>, i: nat, next: Task, sdp: string, parked: seq<string>)
    requires i < |tasks| && !tasks[i].Done? && TasksOk(s, tasks, tasks[i].who)
    requires var t := tasks[i];
             s.isDialer <==> t.Offering? || t.ApplyingAnswer? || (t.Flushing? && !t.answering)
    requires next == NextTask(tasks[i], s, parked)
    ensures var who := tasks[i].who;
            match EventOf(tasks[i], sdp, parked)
            case None => TasksOk(s, tasks[i := next], who)
            case Some(e) => TasksOk(Step(s, e), tasks[i := next], who)
  {
    var t, who := tasks[i], tasks[i].who;
    var after := tasks[i := next];
    match t {
      case Offering(_) => OfferTasks(s, tasks, i, sdp);
      case ApplyingAnswer(_, answer) => AppliedTasks(s, tasks, i, next, answer);
      case ApplyingOffer(_, offer, _) =>
        RemotesGrow(s, Described(offer));
      case Flushing(_, k, _, _) => RemotesGrow(s, Flush(k));
      case Answering(_, _) =>
        FewerTasksOk(s, tasks, after, who);
        RemotesGrow(s, EventOf(t, sdp, parked).value);
      case Replaying(_, rest) =>
        FewerTasksOk(s, tasks, after, who);
        if rest != [] {
          QuietTasks(s, CandidateArrived(rest[0]), after, who);
        }
      case Done =>
    }
  }

  lemma OtherLocal(m: Manager, e: MEvent, who: nat)
    requires WellFormed(m) && who < |m.sessions| && LocalOk(m, who)
    requires e.Resume? && e.task < |m.tasks| && !m.tasks[e.task].Done? ==> m.tasks[e.task].who != who
    ensures |MStep(m, e).sessions| >= |m.sessions| && LocalOk(MStep(m, e), who)
  {
    var s, m1 := m.sessions[who], MStep(m, e);
    StepTouchesOneSession(m, e);
    var effect := EffectOf(m, e);
    OtherSpawns(m, e, who);
    if effect.Touches? && effect.who == who {
      SentStep(s, effect.e);
      if effect.e.AnswerArrived? {
        AnswerTasks(s, m.tasks, who, m1.tasks[|m.tasks|].sdp);
      } else {
        FewerTasksOk(s, m.tasks, m1.tasks, who);
        QuietTasks(s, effect.e, m1.tasks, who);
      }
    } else {
      FewerTasksOk(s, m.tasks, m1.tasks, who);
    }
  }

  lemma FewerAfterResume(tasks: seq<Task>, i: nat, next: Task, who: nat)
    requires i < |tasks| && !Pending(next, who)
    ensures FewerTasks(tasks, tasks[i := next], who)
  {
  }

  lemma FewerAfterSpawn(tasks: seq<Task>, more: seq<Task>, who: nat)
    requires forall t :: t in more ==> !Pending(t, who) || t.ApplyingOffer?
    ensures FewerTasks(tasks, tasks + more, who)
  {
    assert forall i :: |tasks| <= i < |tasks + more| ==> (tasks + more)[i] in more;
  }

  // An answer that arrives is applied by a new coroutine; nothing else starts one for a dialer.
  lemma SpawnedKinds(m: Manager, e: MEvent, who: nat)
    requires WellFormed(m) && who < |m.sessions| && !Routing.Resumes(m, e)
    ensures var effect, more := EffectOf(m, e), Spawned(m, e);
            && (effect.Touches? && effect.who == who ==> !IsLate(effect.e) && !effect.e.Described?)
            && if effect == Touches(who, AnswerArrived)
               then && m.sessions[who].isDialer && m.sessions[who].phase == OFFER_SENT
                    && |more| == 1 && more[0].ApplyingAnswer? && more[0].who == who
               else forall t :: t in more ==> !Pending(t, who) || t.ApplyingOffer?
  {
  }

  // What a step other than a resumption of the session's own coroutines starts for it.
  lemma OtherSpawns(m: Manager, e: MEvent, who: nat)
    requires WellFormed(m) && who < |m.sessions|
    requires e.Resume? && e.task < |m.tasks| && !m.tasks[e.task].Done? ==> m.tasks[e.task].who != who
    ensures var m1, effect := MStep(m, e), EffectOf(m, e);
            && (effect.Touches? && effect.who == who ==> !IsLate(effect.e) && !effect.e.Described?)
            && if effect == Touches(who, AnswerArrived)
               then && m.sessions[who].isDialer && m.sessions[who].phase == OFFER_SENT
                    && |m1.tasks| == |m.tasks| + 1 && m1.tasks[|m.tasks|].ApplyingAnswer?
                    && m1.tasks == m.tasks + [ApplyingAnswer(who, m1.tasks[|m.tasks|].sdp)]
               else FewerTasks(m.tasks, m1.tasks, who)
  {
    StepTasks(m, e);
    if Routing.Resumes(m, e) {
      var t := m.tasks[e.task];
      var s := m.sessions[t.who];
      NextTaskSession(t, s, Parked(m, s.id));
      FewerAfterResume(m.tasks, e.task, NextTask(t, s, Parked(m, s.id)), who);
    } else {
      SpawnedKinds(m, e, who);
      if EffectOf(m, e) != Touches(who, AnswerArrived) {
        FewerAfterSpawn(m.tasks, Spawned(m, e), who);
      }
    }
  }

  lemma StepLocal(m: Manager, e: MEvent, who: nat)
    requires WellFormed(m) && who < |m.sessions| && LocalOk(m, who)
    ensures |MStep(m, e).sessions| >= |m.sessions| && LocalOk(MStep(m, e), who)
  {
    if e.Resume? && e.task < |m.tasks| && !m.tasks[e.task].Done? && m.tasks[e.task].who == who {
      ResumeLocal(m, e.task, e.sdp);
    } else {
      OtherLocal(m, e, who);
    }
  }

  lemma FreshIsLocal(id: nat, isDialer: bool, tasks: seq<Task>, more: Task, who: nat)
    requires id <= U64_MAX && (forall t :: t in tasks ==> !Pending(t, who)) && !more.ApplyingAnswer?
    requires !more.Flushing? && !more.Answering? && (more.Offering? ==> isDialer)
    ensures SentOk(Fresh(id, isDialer)) && TasksOk(Fresh(id, isDialer), tasks + [more], who)
  {
    var after := tasks + [more];
    assert forall i :: 0 <= i < |tasks| ==> after[i] == tasks[i] && tasks[i] in tasks;
    assert forall i :: 0 <= i < |after| && Pending(after[i], who) ==> i == |tasks| && after[i] == more;
  }

  lemma CreatedWith(m: Manager, e: MEvent)
    requires WellFormed(m) && Created(m, e) != [] && (e.Connect? ==> e.id <= U64_MAX)
    ensures |Created(m, e)| == |Spawned(m, e)| == 1 && !Routing.Resumes(m, e) && !EffectOf(m, e).Touches?
    ensures var s, t := Created(m, e)[0], Spawned(m, e)[0];
            s == Fresh(s.id, s.isDialer) && s.id <= U64_MAX && if s.isDialer then t.Offering? else t.ApplyingOffer?
  {
  }

  lemma CreatedLocal(m: Manager, e: MEvent, who: nat)
    requires WellFormed(m) && |m.sessions| <= who < |MStep(m, e).sessions|
    requires e.Connect? ==> e.id <= U64_MAX
    ensures LocalOk(MStep(m, e), who)
  {
    StepTouchesOneSession(m, e);
    StepTasks(m, e);
    assert Created(m, e) != [];
    CreatedWith(m, e);
    var s, t := Created(m, e)[0], Spawned(m, e)[0];
    assert forall t :: t in m.tasks ==> !Pending(t, who);
    FreshIsLocal(s.id, s.isDialer, m.tasks, t, who);
    assert Spawned(m, e) == [t];
  }

  // ---- the world ----

  // Session k of node n has this id and role, and has sent the message.
  predicate SentBy(w: World, n: nat, k: nat, isDialer: bool, m: S.Message) {
    && n < |w| && k < |w[n].sessions|
    && w[n].sessions[k].id == m.id && w[n].sessions[k].isDialer == isDialer && m in w[n].sessions[k].sent
  }

  ghost predicate SomeSent(w: World, isDialer: bool, m: S.Message) {
    exists n, k :: SentBy(w, n, k, isDialer, m)
  }

  // A text the network can deliver, to anyone and any number of times: what is heard of one that
  // some session sent.
  ghost predicate OnTheWire(w: World, text: string) {
    exists isDialer, m :: SomeSent(w, isDialer, m) && text in L.Heard(S.Serialize(m))
  }

  // What a receiver can make of a message: the message itself when its text fits a datagram, and
  // otherwise at worst one of the same kind and id whose data was cut.
  predicate CutOf(cut: S.Message, m: S.Message) {
    && cut.id == m.id && S.Identifier(cut) == S.Identifier(m)
    && (!m.ConnectError? ==> S.Data(cut) <= S.Data(m))
    && (L.Fits(m) ==> cut == m)
  }

  lemma HeardIsCut(m: S.Message, text: string, cut: S.Message)
    requires m.id <= U64_MAX && text in L.Heard(S.Serialize(m)) && S.Parse(text) == Some(cut)
    ensures CutOf(cut, m)
  {
    var s := S.Serialize(m);
    S.RoundTrip(m);
    S.TokenizeSerialized(m);
    if L.Fits(m) {
      L.ShortTextIsHeard(s);
    } else {
      L.LongTextIsCut(s);
      L.SameTokens(s, text);
    }
  }

  // No dialer anywhere has the id: connection ids are freshly drawn.
  predicate FreshId(w: World, id: nat) {
    forall n, k :: 0 <= n < |w| && 0 <= k < |w[n].sessions| && w[n].sessions[k].isDialer ==> w[n].sessions[k].id != id
  }

  ghost predicate Enabled(w: World, n: nat, e: MEvent) {
    && n < |w| && WellFormed(w[n])
    && (e.Receive? ==> OnTheWire(w, e.text))
    && (e.Connect? ==> e.id <= U64_MAX && FreshId(w, e.id))
  }

  datatype WEvent = WEvent(node: nat, e: MEvent)

  function Start(nodes: nat): World { seq(nodes, i requires 0 <= i < nodes => NEW_MANAGER) }

  // An event that cannot happen changes nothing.
  ghost function WStep(w: World, e: WEvent): World {
    if Enabled(w, e.node, e.e) then w[e.node := MStep(w[e.node], e.e)] else w
  }

  ghost function WRun(nodes: nat, events: seq<WEvent>): World
    decreases |events|
  {
    if events == [] then Start(nodes) else WStep(WRun(nodes, events[..|events| - 1]), events[|events| - 1])
  }

  ghost predicate AllLocal(w: World) {
    && (forall n :: 0 <= n < |w| ==> WellFormed(w[n]))
    && (forall n, k :: 0 <= n < |w| && 0 <= k < |w[n].sessions| ==> LocalOk(w[n], k))
  }

  ghost predicate DialersUnique(w: World) {
    forall n, k, n', k' ::
      0 <= n < |w| && 0 <= k < |w[n].sessions| && 0 <= n' < |w| && 0 <= k' < |w[n'].sessions|
      && w[n].sessions[k].isDialer && w[n'].sessions[k'].isDialer && w[n].sessions[k].id == w[n'].sessions[k'].id
      ==> n == n' && k == k'
  }

  // Every description a session holds was sent by a session of the other role with its id.
  ghost predicate DescriptionsOk(w: World, s: Session) {
    forall sdp :: sdp in s.ice.remotes ==> Sourced(w, s, sdp)
  }

  // The message that brings a session of this role and id its remote description.
  function Brings(isDialer: bool, id: nat, sdp: string): S.Message {
    if isDialer then S.ConnectResponse(id, sdp) else S.ConnectRequest(id, sdp)
  }

  // It is the one that was sent, or was cut.
  predicate SameOrCut(sdp: string, m: S.Message)
    requires m.ConnectRequest? || m.ConnectResponse?
  {
    sdp <= m.sdp && (L.Fits(m) ==> sdp == m.sdp)
  }

  ghost predicate SourcedBy(w: World, isDialer: bool, id: nat, sdp: string, full: string) {
    SomeSent(w, !isDialer, Brings(isDialer, id, full)) && SameOrCut(sdp, Brings(isDialer, id, full))
  }

  ghost predicate SourcedFor(w: World, isDialer: bool, id: nat, sdp: string) {
    exists full :: SourcedBy(w, isDialer, id, sdp, full)
  }

  ghost predicate Sourced(w: World, s: Session, sdp: string) { SourcedFor(w, s.isDialer, s.id, sdp) }

  ghost predicate TaskSourced(w: World, m: Manager, t: Task)
    requires WellFormed(m) && t in m.tasks
  {
    t.ApplyingOffer? || t.ApplyingAnswer? ==> Sourced(w, m.sessions[t.who], t.sdp)
  }

  ghost predicate NodeSourced(w: World, m: Manager)
    requires WellFormed(m)
  {
    && (forall k :: 0 <= k < |m.sessions| ==> DescriptionsOk(w, m.sessions[k]))
    && (forall t :: t in m.tasks ==> TaskSourced(w, m, t))
  }

  ghost predicate WorldOk(w: World) {
    AllLocal(w) && DialersUnique(w) && forall n :: 0 <= n < |w| ==> NodeSourced(w, w[n])
  }

  // ---- what a step of the world keeps ----

  lemma SessionPersists(m: Manager, e: MEvent, k: nat)
    requires WellFormed(m) && k < |m.sessions|
    ensures var m1 := MStep(m, e);
            && k < |m1.sessions| && m1.sessions[k].id == m.sessions[k].id
            && m1.sessions[k].isDialer == m.sessions[k].isDialer
            && forall x :: x in m.sessions[k].sent ==> x in m1.sessions[k].sent
  {
    A.IdentitiesKeep(m, e, k);
    StepTouchesOneSession(m, e);
    var effect := EffectOf(m, e);
    if effect.Touches? && effect.who == k {
      SentGrows(m.sessions[k], effect.e);
    }
  }

  lemma SomeSentPersists(w: World, n: nat, e: MEvent, isDialer: bool, m: S.Message)
    requires n < |w| && WellFormed(w[n]) && SomeSent(w, isDialer, m)
    ensures SomeSent(w[n := MStep(w[n], e)], isDialer, m)
  {
    var n', k :| SentBy(w, n', k, isDialer, m);
    if n' == n {
      SessionPersists(w[n], e, k);
    }
    assert SentBy(w[n := MStep(w[n], e)], n', k, isDialer, m);
  }

  lemma SourcedPersists(w: World, n: nat, e: MEvent, s: Session, sdp: string)
    requires n < |w| && WellFormed(w[n]) && Sourced(w, s, sdp)
    ensures Sourced(w[n := MStep(w[n], e)], s, sdp)
  {
    var full :| SourcedBy(w, s.isDialer, s.id, sdp, full);
    SomeSentPersists(w, n, e, !s.isDialer, Brings(s.isDialer, s.id, full));
    assert SourcedBy(w[n := MStep(w[n], e)], s.isDialer, s.id, sdp, full);
  }

  lemma NodePersists(w: World, n: nat, e: MEvent, m: Manager)
    requires n < |w| && WellFormed(w[n]) && WellFormed(m) && NodeSourced(w, m)
    ensures NodeSourced(w[n := MStep(w[n], e)], m)
  {
    var w1 := w[n := MStep(w[n], e)];
    forall k, sdp | 0 <= k < |m.sessions| && sdp in m.sessions[k].ice.remotes
      ensures Sourced(w1, m.sessions[k], sdp)
    {
      assert DescriptionsOk(w, m.sessions[k]);
      SourcedPersists(w, n, e, m.sessions[k], sdp);
    }
    forall t | t in m.tasks
      ensures TaskSourced(w1, m, t)
    {
      assert TaskSourced(w, m, t);
      if t.ApplyingOffer? || t.ApplyingAnswer? {
        SourcedPersists(w, n, e, m.sessions[t.who], t.sdp);
      }
    }
  }

  lemma SenderRole(w: World, isDialer: bool, m: S.Message)
    requires AllLocal(w) && SomeSent(w, isDialer, m)
    ensures m.id <= U64_MAX && (m.ConnectRequest? ==> isDialer) && (m.ConnectResponse? ==> !isDialer)
  {
    var n: nat, k: nat :| SentBy(w, n, k, isDialer, m);
    assert LocalOk(w[n], k);
  }

  // What a text on the wire parses to was sent, or cut, by the right role.
  lemma WireIsGenuine(w: World, text: string, cut: S.Message) returns (isDialer: bool, m: S.Message)
    requires AllLocal(w) && OnTheWire(w, text) && S.Parse(text) == Some(cut)
    ensures SomeSent(w, isDialer, m) && CutOf(cut, m)
    ensures (m.ConnectRequest? ==> isDialer) && (m.ConnectResponse? ==> !isDialer)
  {
    isDialer, m :| SomeSent(w, isDialer, m) && text in L.Heard(S.Serialize(m));
    SenderRole(w, isDialer, m);
    HeardIsCut(m, text, cut);
  }

  predicate SameSource(s: Session, s1: Session) { s.id == s1.id && s.isDialer == s1.isDialer }

  lemma DescriptionsStep(w: World, s: Session, e: Event)
    requires DescriptionsOk(w, s)
    requires e.Described? ==> Sourced(w, s, e.sdp)
    ensures DescriptionsOk(w, Step(s, e)) && SameSource(s, Step(s, e))
  {
    RemotesGrow(s, e);
    StepKeepsIdentity(s, e);
  }

  lemma SessionsSourced(w: World, m: Manager, e: MEvent)
    requires WellFormed(m) && NodeSourced(w, m)
    ensures WellFormed(MStep(m, e))
    ensures var m1 := MStep(m, e);
            && (forall k :: 0 <= k < |m1.sessions| ==> DescriptionsOk(w, m1.sessions[k]))
            && |m1.sessions| >= |m.sessions|
            && forall k :: 0 <= k < |m.sessions| ==> SameSource(m.sessions[k], m1.sessions[k])
  {
    MStepWellFormed(m, e);
    StepTouchesOneSession(m, e);
    var effect := EffectOf(m, e);
    if effect.Touches? {
      if effect.e.Described? {
        assert TaskSourced(w, m, m.tasks[e.task]);
      }
      DescriptionsStep(w, m.sessions[effect.who], effect.e);
    }
  }

  lemma SpawnedBrings(m: Manager, e: MEvent, t: Task)
    requires WellFormed(m) && RoutesOk(m) && t in Spawned(m, e) && (t.ApplyingOffer? || t.ApplyingAnswer?)
    ensures var sessions := Touch(m.sessions, EffectOf(m, e)) + Created(m, e);
            && (EffectOf(m, e).Touches? ==> EffectOf(m, e).who < |m.sessions|) && e.Receive? && t.who < |sessions|
            && var s := sessions[t.who]; S.Parse(e.text) == Some(Brings(s.isDialer, s.id, t.sdp))
  {
  }

  // A coroutine that applies a description is started by the message that carries it.
  lemma NewTaskShape(m: Manager, e: MEvent, t: Task)
    requires WellFormed(m) && RoutesOk(m) && WellFormed(MStep(m, e))
    requires t in MStep(m, e).tasks && t !in m.tasks && (t.ApplyingOffer? || t.ApplyingAnswer?)
    ensures var s := MStep(m, e).sessions[t.who];
            && e.Receive?
            && S.Parse(e.text) == Some(Brings(s.isDialer, s.id, t.sdp))
  {
    StepTasks(m, e);
    StepTouchesOneSession(m, e);
    if !Routing.Resumes(m, e) {
      SpawnedBrings(m, e, t);
    }
  }

  lemma CutDescription(w: World, s: Session, sdp: string, isDialer: bool, m: S.Message)
    requires SomeSent(w, isDialer, m) && CutOf(Brings(s.isDialer, s.id, sdp), m)
    requires (m.ConnectRequest? ==> isDialer) && (m.ConnectResponse? ==> !isDialer)
    ensures Sourced(w, s, sdp)
  {
    assert m == Brings(s.isDialer, s.id, m.sdp);
    assert SourcedBy(w, s.isDialer, s.id, sdp, m.sdp);
  }

  lemma NewTaskSourced(w: World, m: Manager, e: MEvent, t: Task)
    requires WellFormed(m) && RoutesOk(m) && AllLocal(w) && (e.Receive? ==> OnTheWire(w, e.text))
    requires WellFormed(MStep(m, e)) && t in MStep(m, e).tasks && t !in m.tasks
    ensures TaskSourced(w, MStep(m, e), t)
  {
    if t.ApplyingOffer? || t.ApplyingAnswer? {
      NewTaskShape(m, e, t);
      var s := MStep(m, e).sessions[t.who];
      var isDialer, message := WireIsGenuine(w, e.text, Brings(s.isDialer, s.id, t.sdp));
      CutDescription(w, s, t.sdp, isDialer, message);
    }
  }

  lemma NodeStep(w: World, m: Manager, e: MEvent)
    requires WellFormed(m) && RoutesOk(m) && AllLocal(w) && NodeSourced(w, m)
    requires e.Receive? ==> OnTheWire(w, e.text)
    ensures WellFormed(MStep(m, e)) && NodeSourced(w, MStep(m, e))
  {
    var m1 := MStep(m, e);
    SessionsSourced(w, m, e);
    forall t | t in m1.tasks
      ensures TaskSourced(w, m1, t)
    {
      if t in m.tasks {
        assert TaskSourced(w, m, t);
      } else {
        NewTaskSourced(w, m, e, t);
      }
    }
  }

  lemma LocalsStep(m: Manager, e: MEvent)
    requires WellFormed(m) && (e.Connect? ==> e.id <= U64_MAX)
    requires forall k :: 0 <= k < |m.sessions| ==> LocalOk(m, k)
    ensures WellFormed(MStep(m, e)) && forall k :: 0 <= k < |MStep(m, e).sessions| ==> LocalOk(MStep(m, e), k)
  {
    MStepWellFormed(m, e);
    forall k | 0 <= k < |MStep(m, e).sessions|
      ensures LocalOk(MStep(m, e), k)
    {
      if k < |m.sessions| {
        StepLocal(m, e, k);
      } else {
        CreatedLocal(m, e, k);
      }
    }
  }

  // Every dialer after the step was there before, or is the one just created with a fresh id.
  lemma DialerWasThere(w: World, n: nat, e: MEvent, k: nat)
    requires Enabled(w, n, e) && k < |MStep(w[n], e).sessions| && MStep(w[n], e).sessions[k].isDialer
    ensures if k < |w[n].sessions| then SameSource(w[n].sessions[k], MStep(w[n], e).sessions[k])
            else k == |w[n].sessions| && FreshId(w, MStep(w[n], e).sessions[k].id)
  {
    StepTouchesOneSession(w[n], e);
    if k < |w[n].sessions| {
      SessionPersists(w[n], e, k);
    }
  }

  lemma DialersStayUnique(w: World, n: nat, e: MEvent)
    requires Enabled(w, n, e) && DialersUnique(w)
    ensures DialersUnique(w[n := MStep(w[n], e)])
  {
    var w1 := w[n := MStep(w[n], e)];
    forall n1, k1, n2, k2 |
      0 <= n1 < |w1| && 0 <= k1 < |w1[n1].sessions| && 0 <= n2 < |w1| && 0 <= k2 < |w1[n2].sessions|
      && w1[n1].sessions[k1].isDialer && w1[n2].sessions[k2].isDialer
      && w1[n1].sessions[k1].id == w1[n2].sessions[k2].id
      ensures n1 == n2 && k1 == k2
    {
      if n1 == n {
        DialerWasThere(w, n, e, k1);
      }
      if n2 == n {
        DialerWasThere(w, n, e, k2);
      }
    }
  }

  ghost predicate WorldInvariant(w: World) {
    WorldOk(w) && forall n :: 0 <= n < |w| ==> RoutingOk(w[n])
  }

  lemma NodesStaySourced(w: World, n: nat, e: MEvent)
    requires WorldInvariant(w) && Enabled(w, n, e)
    ensures var w1 := w[n := MStep(w[n], e)];
            forall n' :: 0 <= n' < |w1| ==> WellFormed(w1[n']) && NodeSourced(w1, w1[n'])
  {
    var w1 := w[n := MStep(w[n], e)];
    NodeStep(w, w[n], e);
    forall n' | 0 <= n' < |w1|
      ensures WellFormed(w1[n']) && NodeSourced(w1, w1[n'])
    {
      NodePersists(w, n, e, w1[n']);
    }
  }

  lemma WorldStep(w: World, n: nat, e: MEvent)
    requires WorldInvariant(w) && Enabled(w, n, e)
    ensures WorldInvariant(w[n := MStep(w[n], e)])
  {
    var w1 := w[n := MStep(w[n], e)];
    LocalsStep(w[n], e);
    DialersStayUnique(w, n, e);
    NodesStaySourced(w, n, e);
    RoutingKeeps(w[n], e);
  }

  lemma {:induction false} WorldsKeep(nodes: nat, events: seq<WEvent>)
    ensures WorldInvariant(WRun(nodes, events))
    decreases |events|
  {
    if events != [] {
      var w, e := WRun(nodes, events[..|events| - 1]), events[|events| - 1];
      WorldsKeep(nodes, events[..|events| - 1]);
      if Enabled(w, e.node, e.e) {
        WorldStep(w, e.node, e.e);
      }
    }
  }

  // The session sent this, or it is what was left of something it sent.
  ghost predicate Sent(s: Session, sdp: string, full: S.Message) {
    (full.ConnectRequest? || full.ConnectResponse?) && full in s.sent && full.id == s.id && SameOrCut(sdp, full)
  }

  // Session l answered session d: same id, the answer sent by l, and every offer l applied is
  // the one offer d sent. Each is what was sent, unless its text did not fit a datagram.
  ghost predicate Answered(l: Session, d: Session, answer: string) {
    && !l.isDialer && l.id == d.id
    && (exists full: S.Message :: full.ConnectResponse? && Sent(l, answer, full))
    && l.ice.remotes != []
    && forall offer :: offer in l.ice.remotes ==> exists full: S.Message :: full.ConnectRequest? && Sent(d, offer, full)
  }

  // Agreement: over every run of any number of peers on such a network, a dialer applies at
  // most one answer, it sent at most one offer, and each answer it applies was produced, from
  // that offer, by a listener session with its connection id.
  lemma {:induction false} DialersAndListenersAgree(nodes: nat, events: seq<WEvent>, n: nat, k: nat)
    requires var w := WRun(nodes, events); n < |w| && k < |w[n].sessions| && w[n].sessions[k].isDialer
    ensures var w := WRun(nodes, events); var d := w[n].sessions[k];
            && |d.ice.remotes| <= 1
            && (forall x, y :: x in d.sent && y in d.sent && x.ConnectRequest? && y.ConnectRequest? ==> x == y)
            && forall answer :: answer in d.ice.remotes ==>
                 exists n', k' :: 0 <= n' < |w| && 0 <= k' < |w[n'].sessions| && Answered(w[n'].sessions[k'], d, answer)
  {
    var w := WRun(nodes, events);
    var d := w[n].sessions[k];
    WorldsKeep(nodes, events);
    assert LocalOk(w[n], k);
    assert NodeSourced(w, w[n]) && DescriptionsOk(w, d);
    forall answer | answer in d.ice.remotes
      ensures exists n', k' :: 0 <= n' < |w| && 0 <= k' < |w[n'].sessions| && Answered(w[n'].sessions[k'], d, answer)
    {
      assert Sourced(w, d, answer);
      var full :| SourcedBy(w, d.isDialer, d.id, answer, full);
      var n': nat, k': nat :| SentBy(w, n', k', false, S.ConnectResponse(d.id, full));
      ListenerAnswered(w, n, k, n', k', answer, full);
    }
  }

  lemma ListenerAnswered(w: World, n: nat, k: nat, n': nat, k': nat, answer: string, full: string)
    requires WorldOk(w) && n < |w| && k < |w[n].sessions| && w[n].sessions[k].isDialer
    requires SentBy(w, n', k', false, S.ConnectResponse(w[n].sessions[k].id, full))
    requires SameOrCut(answer, S.ConnectResponse(w[n].sessions[k].id, full))
    ensures Answered(w[n'].sessions[k'], w[n].sessions[k], answer)
  {
    var d, l := w[n].sessions[k], w[n'].sessions[k'];
    assert LocalOk(w[n'], k');
    assert NodeSourced(w, w[n']) && DescriptionsOk(w, l);
    assert Sent(l, answer, S.ConnectResponse(d.id, full));
    forall offer | offer in l.ice.remotes
      ensures exists m: S.Message :: m.ConnectRequest? && Sent(d, offer, m)
    {
      assert Sourced(w, l, offer);
      var sent :| SourcedBy(w, l.isDialer, l.id, offer, sent);
      var n1: nat, k1: nat :| SentBy(w, n1, k1, true, S.ConnectRequest(l.id, sent));
      assert Sent(d, offer, S.ConnectRequest(l.id, sent));
    }
  }
}
