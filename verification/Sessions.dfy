// One connection attempt, cut at its awaits: each event is a stretch of code that runs without
// yielding, so a sequence of events is one interleaving of the session's coroutines, timer and
// transport callbacks.
module Sessions {
  import opened Basics
  import opened SdpEdits
  import P = PeerConnections
  import S = Signaling

  const NONE := 0
  const ICE_FAILED := 5
  const WAITING_FOR_RESPONSE := 14
  const WAITING_FOR_ACCEPT := 15
  const UNICAST_DELIVERY_FAILED := 19
  const DATA_CHANNEL_CLOSED := 32

  datatype Phase = IDLE | OFFER_SENT | ANSWER_SENT | NEGOTIATING | CONNECTED | CLOSED

  // The on_open and on_close calls.
  datatype Callback = Opened | Closed(error: int)

  // `timer` is the code the armed timeout closes with; `sent` and `log` record the signaling
  // messages sent and the callbacks fired.
  datatype Session = Session(
    id: nat, isDialer: bool, phase: Phase, timer: Option<int>, ice: P.Ice, sent: seq<S.Message>, log: seq<Callback>)

  function Fresh(id: nat, isDialer: bool): Session {
    Session(id, isDialer, IDLE, None, P.NEW_ICE, [], [])
  }

  datatype Event =
    | OfferReady(sdp: string, trickle: bool)    // start() or offer() resumes with the local offer
    // _handle_request() or answer() resumes with the local answer, and goes on to replay a candidate, if any.
    | AnswerReady(sdp: string, trickle: bool, replay: Option<string>)
    | AnswerArrived                             // _handle_response() or accept_answer(), up to its await
    | Described(sdp: string)                    // setRemoteDescription() returns; the flush loop starts
    | Flush(k: nat)                             // the flush loop resumes at index k
    | CandidateArrived(text: string)
    | ErrorArrived(code: int)
    | ChannelsOpen
    | TransportState(state: string)
    | Timeout
    | Close(error: int, notify: bool)

  function Trickle(id: nat, candidates: seq<string>): seq<S.Message> {
    seq(|candidates|, i requires 0 <= i < |candidates| => S.CandidateAdd(id, candidates[i]))
  }

  function CloseWith(s: Session, error: int, notify: bool): Session {
    if s.phase == CLOSED then s
    else s.(phase := CLOSED, timer := None, log := s.log + [Closed(error)],
            sent := if notify then s.sent + [S.ConnectError(s.id, error)] else s.sent)
  }

  function Step(s: Session, e: Event): Session {
    match e
    case OfferReady(sdp, trickle) =>
      s.(phase := OFFER_SENT, timer := Some(WAITING_FOR_RESPONSE),
         sent := if trickle
                 then s.sent + [S.ConnectRequest(s.id, WithoutCandidates(sdp))] + Trickle(s.id, Candidates(sdp))
                 else s.sent)
    case AnswerReady(sdp, trickle, replay) =>
      s.(phase := ANSWER_SENT, timer := Some(WAITING_FOR_ACCEPT),
         ice := if replay.Some? then P.AddCandidate(s.ice, replay.value) else s.ice,
         sent := if trickle
                 then s.sent + [S.ConnectResponse(s.id, WithoutCandidates(sdp))] + Trickle(s.id, Candidates(sdp))
                 else s.sent)
    case AnswerArrived =>
      if s.phase == OFFER_SENT then s.(phase := NEGOTIATING, timer := Some(WAITING_FOR_ACCEPT)) else s
    case Described(sdp) => s.(ice := P.Describe(s.ice, sdp))
    case Flush(k) => s.(ice := P.FlushAt(s.ice, k))
    case CandidateArrived(text) =>
      if s.phase == CLOSED then s else s.(ice := P.AddCandidate(s.ice, text))
    case ErrorArrived(code) =>
      if !s.isDialer && code == UNICAST_DELIVERY_FAILED then s else CloseWith(s, code, false)
    case ChannelsOpen =>
      if s.phase == CONNECTED || s.phase == CLOSED then s
      else s.(phase := CONNECTED, timer := None, log := s.log + [Opened])
    case TransportState(state) =>
      if state == "failed" then
        CloseWith(s, if s.phase == CONNECTED then DATA_CHANNEL_CLOSED else ICE_FAILED, false)
      else if state == "closed" && s.phase == CONNECTED then CloseWith(s, DATA_CHANNEL_CLOSED, false)
      else s
    case Timeout =>
      (match s.timer case None => s case Some(code) => CloseWith(s, code, false))
    case Close(error, notify) => CloseWith(s, error, notify)
  }

  lemma StepKeepsIdentity(s: Session, e: Event)
    ensures Step(s, e).id == s.id && Step(s, e).isDialer == s.isDialer
  {
  }

  function Run(s: Session, events: seq<Event>): Session {
    if events == [] then s else Step(Run(s, events[..|events| - 1]), events[|events| - 1])
  }

  // ---- the timer ----

  function TimerFor(phase: Phase): Option<int> {
    match phase
    case OFFER_SENT => Some(WAITING_FOR_RESPONSE)
    case NEGOTIATING => Some(WAITING_FOR_ACCEPT)
    case ANSWER_SENT => Some(WAITING_FOR_ACCEPT)
    case _ => None
  }

  // In every run, whatever the interleaving, a timeout is armed exactly in the three waiting
  // phases: with code 14 while waiting for the response, 15 while waiting for the transport.
  lemma {:induction false} TimerMatchesPhase(id: nat, isDialer: bool, events: seq<Event>)
    ensures var s := Run(Fresh(id, isDialer), events); s.timer == TimerFor(s.phase)
  {
    if events != [] {
      TimerMatchesPhase(id, isDialer, events[..|events| - 1]);
    }
  }

  // ---- the lifecycle ----

  // How far a session has come; the phases of the other role do not occur.
  function Level(isDialer: bool, phase: Phase): nat {
    match phase
    case IDLE => 0
    case OFFER_SENT => 1
    case ANSWER_SENT => 1
    case NEGOTIATING => 2
    case CONNECTED => if isDialer then 3 else 2
    case CLOSED => if isDialer then 4 else 3
  }

  predicate RolePhase(s: Session) {
    if s.isDialer then !s.phase.ANSWER_SENT? else !s.phase.OFFER_SENT? && !s.phase.NEGOTIATING?
  }

  // start() and offer() are for dialers; answering a request is for listeners.
  predicate FitsRole(isDialer: bool, e: Event) {
    (e.OfferReady? ==> isDialer) && (e.AnswerReady? ==> !isDialer)
  }

  predicate AllFitRole(isDialer: bool, events: seq<Event>) {
    forall e :: e in events ==> FitsRole(isDialer, e)
  }

  // The two handlers that write the state after their await.
  predicate IsLate(e: Event) { e.OfferReady? || e.AnswerReady? }

  // No other handler moved the session on while this one was suspended.
  predicate WindowQuiet(s: Session, e: Event) {
    IsLate(e) ==> s.phase == IDLE || s.phase == if e.OfferReady? then OFFER_SENT else ANSWER_SENT
  }

  function At(s: Session, events: seq<Event>, i: nat): Session
    requires i <= |events|
  {
    Run(s, events[..i])
  }

  predicate WindowsQuiet(s: Session, events: seq<Event>) {
    forall i :: 0 <= i < |events| ==> WindowQuiet(At(s, events, i), events[i])
  }

  function LevelAt(s: Session, events: seq<Event>, i: nat): nat
    requires i <= |events|
  {
    Level(s.isDialer, At(s, events, i).phase)
  }

  // The lifecycle never steps back.
  predicate Climbs(s: Session, events: seq<Event>) {
    forall i, j :: 0 <= i <= j <= |events| ==> LevelAt(s, events, i) <= LevelAt(s, events, j)
  }

  lemma StepClimbsIff(s: Session, e: Event)
    requires RolePhase(s) && FitsRole(s.isDialer, e)
    ensures RolePhase(Step(s, e)) && Step(s, e).isDialer == s.isDialer && Step(s, e).id == s.id
    ensures Level(s.isDialer, s.phase) <= Level(s.isDialer, Step(s, e).phase) <==> WindowQuiet(s, e)
    ensures Level(s.isDialer, s.phase) == Level(s.isDialer, Step(s, e).phase) <==> s.phase == Step(s, e).phase
  {
  }

  lemma AtNext(s: Session, events: seq<Event>, i: nat)
    requires i < |events|
    ensures At(s, events, i + 1) == Step(At(s, events, i), events[i])
  {
    assert events[..i + 1][..i] == events[..i];
  }

  lemma {:induction false} RolesKeep(s: Session, events: seq<Event>, i: nat)
    requires i <= |events| && RolePhase(s) && AllFitRole(s.isDialer, events)
    ensures RolePhase(At(s, events, i)) && At(s, events, i).isDialer == s.isDialer
  {
    if i > 0 {
      RolesKeep(s, events, i - 1);
      AtNext(s, events, i - 1);
      StepClimbsIff(At(s, events, i - 1), events[i - 1]);
    }
  }

  lemma LevelStep(s: Session, events: seq<Event>, i: nat)
    requires i < |events| && RolePhase(s) && AllFitRole(s.isDialer, events)
    ensures LevelAt(s, events, i) <= LevelAt(s, events, i + 1) <==> WindowQuiet(At(s, events, i), events[i])
  {
    RolesKeep(s, events, i);
    AtNext(s, events, i);
    StepClimbsIff(At(s, events, i), events[i]);
  }

  lemma {:induction false} LevelsClimb(s: Session, events: seq<Event>, i: nat, j: nat)
    requires i <= j <= |events| && RolePhase(s) && AllFitRole(s.isDialer, events) && WindowsQuiet(s, events)
    ensures LevelAt(s, events, i) <= LevelAt(s, events, j)
    decreases j
  {
    if i < j {
      LevelsClimb(s, events, i, j - 1);
      LevelStep(s, events, j - 1);
    }
  }

  // A run climbs IDLE < OFFER_SENT < NEGOTIATING < CONNECTED < CLOSED, or IDLE < ANSWER_SENT <
  // CONNECTED < CLOSED, exactly when every late write finds its window quiet.
  lemma LifecycleClimbsIff(s: Session, events: seq<Event>)
    requires RolePhase(s) && AllFitRole(s.isDialer, events)
    ensures Climbs(s, events) <==> WindowsQuiet(s, events)
  {
    if WindowsQuiet(s, events) {
      forall i, j | 0 <= i <= j <= |events|
        ensures LevelAt(s, events, i) <= LevelAt(s, events, j)
      {
        LevelsClimb(s, events, i, j);
      }
    } else {
      var i :| 0 <= i < |events| && !WindowQuiet(At(s, events, i), events[i]);
      LevelStep(s, events, i);
    }
  }

  lemma {:induction false} ClosedStaysClosed(s: Session, events: seq<Event>)
    requires s.phase == CLOSED && (forall e :: e in events ==> !IsLate(e))
    ensures var r := Run(s, events); r.phase == CLOSED && r.log == s.log && r.sent == s.sent
    ensures (forall e :: e in events ==> !e.Described? && !e.Flush?) ==> Run(s, events).ice == s.ice
  {
    if events != [] {
      assert events[|events| - 1] in events;
      assert forall e :: e in events[..|events| - 1] ==> e in events;
      ClosedStaysClosed(s, events[..|events| - 1]);
    }
  }

  // A closed session stays closed exactly as long as no late write resumes.
  lemma ClosedIsAbsorbingIff(s: Session, events: seq<Event>)
    requires s.phase == CLOSED
    ensures (forall i :: 0 <= i <= |events| ==> At(s, events, i).phase == CLOSED)
            <==> (forall i :: 0 <= i < |events| ==> !IsLate(events[i]))
  {
    if forall i :: 0 <= i < |events| ==> !IsLate(events[i]) {
      forall i | 0 <= i <= |events|
        ensures At(s, events, i).phase == CLOSED
      {
        ClosedStaysClosed(s, events[..i]);
      }
    } else {
      var i :| 0 <= i < |events| && IsLate(events[i]);
      AtNext(s, events, i);
    }
  }

  // A remote error inside a listener's answering window is undone, and the session is closed a
  // second time.
  lemma LateAnswerReopens(id: nat, code: int, sdp: string)
    requires code != UNICAST_DELIVERY_FAILED
    ensures var events := [ErrorArrived(code), AnswerReady(sdp, true, None), Timeout];
            var s := Fresh(id, false);
            && !WindowsQuiet(s, events)
            && At(s, events, 1).phase == CLOSED && At(s, events, 2).phase == ANSWER_SENT
            && Run(s, events).log == [Closed(code), Closed(WAITING_FOR_ACCEPT)]
  {
    var events := [ErrorArrived(code), AnswerReady(sdp, true, None), Timeout];
    var s := Fresh(id, false);
    assert events[..0] == [];
    AtNext(s, events, 0);
    AtNext(s, events, 1);
    AtNext(s, events, 2);
    assert events[..3] == events;
    assert !WindowQuiet(At(s, events, 1), events[1]);
  }

  // How often the phase changes during a run.
  function Changes(s: Session, events: seq<Event>): nat {
    if events == [] then 0
    else
      var front := events[..|events| - 1];
      Changes(s, front) + if Run(s, front).phase == Run(s, events).phase then 0 else 1
  }

  // Exactly the callbacks that belong to a phase: on_open once or never, on_close once, last.
  predicate LogFits(s: Session) {
    match s.phase
    case CONNECTED => s.log == [Opened]
    case CLOSED => || (|s.log| == 1 && s.log[0].Closed?)
                   || (|s.log| == 2 && s.log[0] == Opened && s.log[1].Closed?)
    case _ => s.log == []
  }

  lemma LogStep(s: Session, e: Event)
    requires LogFits(s) && WindowQuiet(s, e)
    ensures LogFits(Step(s, e))
  {
  }

  // In a run with quiet windows the phase changes at most four times (three for a listener),
  // on_open and on_close each fire at most once, and on_open never follows on_close.
  lemma {:induction false} QuietLifecycle(id: nat, isDialer: bool, events: seq<Event>)
    requires AllFitRole(isDialer, events) && WindowsQuiet(Fresh(id, isDialer), events)
    ensures var s := Run(Fresh(id, isDialer), events);
            && LogFits(s) && RolePhase(s) && s.isDialer == isDialer
            && Changes(Fresh(id, isDialer), events) <= Level(isDialer, s.phase) <= (if isDialer then 4 else 3)
  {
    if events != [] {
      var n := |events| - 1;
      var front, s0 := events[..n], Fresh(id, isDialer);
      assert forall i :: 0 <= i < n ==> front[..i] == events[..i];
      assert forall i :: 0 <= i < n ==> At(s0, front, i) == At(s0, events, i) && front[i] == events[i];
      QuietLifecycle(id, isDialer, front);
      assert At(s0, events, n) == Run(s0, front);
      LogStep(Run(s0, front), events[n]);
      StepClimbsIff(Run(s0, front), events[n]);
    }
  }

  predicate Waits(phase: Phase) { TimerFor(phase).Some? }

  // In every run with quiet windows the error of a close tells how far the session had come: a
  // timeout means it was waiting, 14 for the response and 15 for the transport; a failed
  // transport means 32 once on_open had fired and 5 before; and error 19 from the remote never
  // closes a listener.
  lemma {:induction false} CloseErrorTellsWhy(id: nat, isDialer: bool, events: seq<Event>, e: Event)
    requires AllFitRole(isDialer, events) && WindowsQuiet(Fresh(id, isDialer), events)
    requires var s := Run(Fresh(id, isDialer), events); s.phase != CLOSED && Step(s, e).phase == CLOSED
    ensures var s := Run(Fresh(id, isDialer), events); var s1 := Step(s, e);
            && |s1.log| == |s.log| + 1 && s1.log[..|s.log|] == s.log && s1.log[|s.log|].Closed?
            && var error := s1.log[|s.log|].error;
               && (e.Timeout? ==> Waits(s.phase) && s.log == [])
               && (e.Timeout? ==> error == if s.phase == OFFER_SENT then 14 else 15)
               && (e.TransportState? ==> error == if Opened in s.log then 32 else 5)
               && (e.ErrorArrived? && !isDialer ==> error != 19)
  {
    QuietLifecycle(id, isDialer, events);
    TimerMatchesPhase(id, isDialer, events);
  }

  // ---- what a session does, event by event ----

  // The error an event closes a session with that is not yet closed, if it closes it.
  predicate ClosesWith(s: Session, e: Event, error: int) {
    match e
    case Close(code, _) => error == code
    case ErrorArrived(code) => error == code && (s.isDialer || code != 19)
    case Timeout => (s.phase == OFFER_SENT && error == 14) || ((s.phase == NEGOTIATING || s.phase == ANSWER_SENT) && error == 15)
    case TransportState(state) =>
      if s.phase == CONNECTED then (state == "failed" || state == "closed") && error == 32
      else state == "failed" && error == 5
    case _ => false
  }

  // A session closes on exactly these events, with exactly these errors, and tells the remote only
  // when asked to. It opens exactly when its channels do, and only once.
  lemma ClosesIff(id: nat, isDialer: bool, events: seq<Event>, e: Event)
    requires Run(Fresh(id, isDialer), events).phase != CLOSED
    ensures var s := Run(Fresh(id, isDialer), events);
            var s1 := Step(s, e);
            && (s1.phase == CLOSED <==> exists error :: ClosesWith(s, e, error))
            && (forall error :: ClosesWith(s, e, error) ==>
                  && s1.log == s.log + [Closed(error)]
                  && s1.sent == if e.Close? && e.notify then s.sent + [S.ConnectError(s.id, error)] else s.sent)
            && (s1.log == s.log + [Opened] <==> e.ChannelsOpen? && s.phase != CONNECTED)
            && (e.ChannelsOpen? ==> s1.phase == CONNECTED)
            && (s1.log != s.log ==> e.ChannelsOpen? || s1.phase == CLOSED)
  {
    TimerMatchesPhase(id, isDialer, events);
    var s := Run(Fresh(id, isDialer), events);
    KeepsIdentity(Fresh(id, isDialer), events);
    if Step(s, e).phase == CLOSED {
      ClosingError(s, e);
      assert Step(s, e).log[|s.log|].Closed?;
    }
  }

  lemma {:induction false} KeepsIdentity(s: Session, events: seq<Event>)
    ensures Run(s, events).id == s.id && Run(s, events).isDialer == s.isDialer
  {
    if events != [] {
      KeepsIdentity(s, events[..|events| - 1]);
      StepKeepsIdentity(Run(s, events[..|events| - 1]), events[|events| - 1]);
    }
  }

  lemma ClosingError(s: Session, e: Event)
    requires s.phase != CLOSED && s.timer == TimerFor(s.phase) && Step(s, e).phase == CLOSED
    ensures exists error :: ClosesWith(s, e, error)
  {
    var error := match e
      case Close(code, _) => code
      case ErrorArrived(code) => code
      case Timeout => (if s.phase == OFFER_SENT then 14 else 15)
      case TransportState(_) => (if s.phase == CONNECTED then 32 else 5)
      case _ => 0;
    assert ClosesWith(s, e, error);
  }

  // One message, then one for each candidate, in order.
  predicate Appends(before: seq<S.Message>, after: seq<S.Message>, first: S.Message, candidates: seq<string>) {
    && |after| == |before| + 1 + |candidates| && after[..|before|] == before && after[|before|] == first
    && forall k :: 0 <= k < |candidates| ==>
         after[|before| + 1 + k].CandidateAdd? && after[|before| + 1 + k].id == first.id
         && after[|before| + 1 + k].candidate == candidates[k]
  }

  lemma TrickleAppends(before: seq<S.Message>, description: S.Message, candidates: seq<string>)
    ensures Appends(before, before + [description] + Trickle(description.id, candidates), description, candidates)
  {
  }

  // The offer goes out when it is ready, and the answer likewise: the description first, without
  // its candidates, then they, in order. Handed over out of band, nothing is sent; and no other
  // event sends anything, but for the notice of a close.
  lemma SendsExactly(s: Session, e: Event)
    ensures e.OfferReady? && e.trickle ==>
              Appends(s.sent, Step(s, e).sent, S.ConnectRequest(s.id, WithoutCandidates(e.sdp)), Candidates(e.sdp))
    ensures e.AnswerReady? && e.trickle ==>
              Appends(s.sent, Step(s, e).sent, S.ConnectResponse(s.id, WithoutCandidates(e.sdp)), Candidates(e.sdp))
    ensures IsLate(e) && !e.trickle ==> Step(s, e).sent == s.sent
    ensures !IsLate(e) && !(e.Close? && e.notify && s.phase != CLOSED) ==> Step(s, e).sent == s.sent
  {
    if IsLate(e) && e.trickle {
      var rest := WithoutCandidates(e.sdp);
      TrickleAppends(s.sent, if e.OfferReady? then S.ConnectRequest(s.id, rest) else S.ConnectResponse(s.id, rest),
                     Candidates(e.sdp));
    }
  }

  // ---- real time ----

  // A session with the time its timeout was last armed and its last offer or answer was sent.
  datatype Timed = Timed(s: Session, armedAt: real, sentAt: real, waiting: bool)
  datatype TimedEvent = TimedEvent(time: real, e: Event)

  predicate Arms(s: Session, e: Event) { IsLate(e) || (e.AnswerArrived? && s.phase == OFFER_SENT) }

  function TimedStep(t: Timed, e: TimedEvent): Timed {
    Timed(Step(t.s, e.e),
          if Arms(t.s, e.e) then e.time else t.armedAt,
          if IsLate(e.e) then e.time else t.sentAt,
          t.waiting || IsLate(e.e))
  }

  function TimedRun(t: Timed, events: seq<TimedEvent>): Timed {
    if events == [] then t else TimedStep(TimedRun(t, events[..|events| - 1]), events[|events| - 1])
  }

  // The event loop lets no time pass beyond an armed deadline: the timeout runs first.
  predicate Due(t: Timed, timeout: real, now: real) {
    t.s.timer.Some? ==> now <= t.armedAt + timeout
  }

  predicate Punctual(t: Timed, timeout: real, events: seq<TimedEvent>) {
    events != [] ==>
      && Punctual(t, timeout, events[..|events| - 1])
      && Due(TimedRun(t, events[..|events| - 1]), timeout, events[|events| - 1].time)
  }

  predicate InBounds(t: Timed, timeout: real) {
    && t.s.timer == TimerFor(t.s.phase)
    && (t.waiting ==> t.s.phase != IDLE)
    && (t.s.phase == OFFER_SENT || t.s.phase == ANSWER_SENT ==> t.armedAt == t.sentAt)
    && (t.s.phase == NEGOTIATING ==> t.armedAt <= t.sentAt + timeout)
  }

  lemma {:induction false} BoundsKeep(id: nat, isDialer: bool, timeout: real, events: seq<TimedEvent>)
    requires Punctual(Timed(Fresh(id, isDialer), 0.0, 0.0, false), timeout, events)
    ensures InBounds(TimedRun(Timed(Fresh(id, isDialer), 0.0, 0.0, false), events), timeout)
  {
    if events != [] {
      BoundsKeep(id, isDialer, timeout, events[..|events| - 1]);
    }
  }

  // With timeout T, in every run: once more than 2T has passed since the last offer, or more
  // than T since the last answer, the session is CONNECTED or CLOSED.
  lemma NegotiationIsBounded(id: nat, isDialer: bool, timeout: real, events: seq<TimedEvent>, now: real)
    requires timeout >= 0.0
    requires Punctual(Timed(Fresh(id, isDialer), 0.0, 0.0, false), timeout, events)
    requires Due(TimedRun(Timed(Fresh(id, isDialer), 0.0, 0.0, false), events), timeout, now)
    ensures var t := TimedRun(Timed(Fresh(id, isDialer), 0.0, 0.0, false), events);
            && (t.waiting && now > t.sentAt + 2.0 * timeout ==> t.s.phase == CONNECTED || t.s.phase == CLOSED)
            && (now > t.sentAt + timeout ==> t.s.phase != OFFER_SENT && t.s.phase != ANSWER_SENT)
  {
    BoundsKeep(id, isDialer, timeout, events);
  }
}
