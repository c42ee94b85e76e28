// The session and manager objects. Each method is one stretch of code between two awaits; what
// it does to the object is tied to the step functions the theorems about whole runs are about.
module Engine {
  import opened Basics
  import opened PeerConnections
  import F = Framing
  import E = SdpEdits
  import S = Signaling
  import N = Sessions
  import M = Managers
  import R = Routing

  function AfterSignal(s: N.Session, message: S.Message): N.Session {
    match message
    case ConnectError(_, error) => if s.phase == N.CLOSED then s else N.Step(s, N.ErrorArrived(error))
    case CandidateAdd(_, candidate) => N.Step(s, N.CandidateArrived(candidate))
    case ConnectResponse(_, _) => if s.isDialer then N.Step(s, N.AnswerArrived) else s
    case ConnectRequest(_, _) => s
  }

  // A response only to a dialer that waits for one, a request only to a listener that is idle.
  predicate Awaits(s: N.Session, message: S.Message) {
    || (message.ConnectResponse? && s.isDialer && s.phase == N.OFFER_SENT)
    || (message.ConnectRequest? && !s.isDialer && s.phase == N.IDLE)
  }

  class Session {
    const id: nat
    const isDialer: bool
    const pc: PeerConnection
    var state: N.Phase
    // The code the armed timeout closes with.
    var timeout: Option<int>
    // The signaling messages sent, and the on_open and on_close calls, in order.
    var sent: seq<S.Message>
    var callbacks: seq<N.Callback>

    ghost function View(): N.Session
      reads this, pc
    {
      N.Session(id, isDialer, state, timeout, pc.Candidates(), sent, callbacks)
    }

    constructor (id: nat, isDialer: bool)
      ensures View() == N.Fresh(id, isDialer) && fresh(pc) && fresh(pc.packets)
    {
      this.id, this.isDialer := id, isDialer;
      pc := new PeerConnection(isDialer, true);
      state, timeout, sent, callbacks := N.IDLE, None, [], [];
    }

    method CancelTimeout()
      modifies this`timeout
      ensures timeout == None
    {
      if timeout.Some? {
        timeout := None;
      }
    }

    method ArmTimeout(error: int)
      modifies this`timeout
      ensures timeout == Some(error)
    {
      CancelTimeout();
      timeout := Some(error);
    }

    method SendCandidates(candidates: seq<string>)
      modifies this`sent
      ensures sent == old(sent) + N.Trickle(id, candidates)
    {
      for i := 0 to |candidates|
        invariant sent == old(sent) + N.Trickle(id, candidates[..i])
      {
        sent := sent + [S.CandidateAdd(id, candidates[i])];
      }
      assert candidates[..|candidates|] == candidates;
    }

    // start() and offer() once the local offer exists; offer() hands it over out of band.
    method OfferReady(sdp: string, trickle: bool)
      modifies this
      ensures View() == N.Step(old(View()), N.OfferReady(sdp, trickle))
      ensures trickle ==> N.Appends(old(sent), sent, S.ConnectRequest(id, E.WithoutCandidates(sdp)), E.Candidates(sdp))
      ensures !trickle ==> sent == old(sent)
    {
      state := N.OFFER_SENT;
      if trickle {
        var offer, candidates := E.StripCandidates(sdp);
        sent := sent + [S.ConnectRequest(id, offer)];
        SendCandidates(candidates);
        N.TrickleAppends(old(sent), S.ConnectRequest(id, offer), candidates);
      }
      ArmTimeout(N.WAITING_FOR_RESPONSE);
    }

    // answer() or the request handler once the local answer exists.
    method AnswerReady(sdp: string, trickle: bool)
      modifies this
      ensures View() == N.Step(old(View()), N.AnswerReady(sdp, trickle, None))
      ensures trickle ==> N.Appends(old(sent), sent, S.ConnectResponse(id, E.WithoutCandidates(sdp)), E.Candidates(sdp))
      ensures !trickle ==> sent == old(sent)
    {
      state := N.ANSWER_SENT;
      if trickle {
        var answer, candidates := E.StripCandidates(sdp);
        sent := sent + [S.ConnectResponse(id, answer)];
        SendCandidates(candidates);
        N.TrickleAppends(old(sent), S.ConnectResponse(id, answer), candidates);
      }
      ArmTimeout(N.WAITING_FOR_ACCEPT);
    }

    // `awaits` tells whether the remote answer is now being applied.
    method HandleResponse() returns (awaits: bool)
      modifies this
      ensures View() == N.Step(old(View()), N.AnswerArrived)
      ensures awaits == (old(state) == N.OFFER_SENT)
    {
      if state != N.OFFER_SENT {
        return false;
      }
      state := N.NEGOTIATING;
      ArmTimeout(N.WAITING_FOR_ACCEPT);
      return true;
    }

    method DescriptionApplied(sdp: string) returns (again: bool)
      modifies pc
      ensures View() == N.Step(old(View()), N.Described(sdp))
      ensures again == (old(pc.pendingRemoteCandidates) != [])
    {
      again := pc.RemoteDescriptionApplied(sdp);
    }

    method FlushResumed(k: nat) returns (again: bool)
      modifies pc
      ensures View() == N.Step(old(View()), N.Flush(k))
      ensures again == (k < |old(pc.pendingRemoteCandidates)|)
    {
      again := pc.FlushTurn(k);
    }

    method HandleCandidate(candidate: string)
      modifies pc
      ensures View() == N.Step(old(View()), N.CandidateArrived(candidate))
    {
      if state == N.CLOSED {
        return;
      }
      pc.AddRemoteCandidate(candidate);
    }

    method HandleConnectError(error: int)
      modifies this
      ensures View() == N.Step(old(View()), N.ErrorArrived(error))
    {
      if !isDialer && error == N.UNICAST_DELIVERY_FAILED {
        return;
      }
      Close(error, false);
    }

    method HandleChannelsOpen()
      modifies this
      ensures View() == N.Step(old(View()), N.ChannelsOpen)
    {
      if state == N.CONNECTED || state == N.CLOSED {
        return;
      }
      state := N.CONNECTED;
      CancelTimeout();
      callbacks := callbacks + [N.Opened];
    }

    method HandleConnectionState(transport: string)
      modifies this
      ensures View() == N.Step(old(View()), N.TransportState(transport))
    {
      if state == N.CLOSED {
        return;
      }
      if transport == "failed" {
        Close(if state == N.CONNECTED then N.DATA_CHANNEL_CLOSED else N.ICE_FAILED, false);
      } else if transport == "closed" && state == N.CONNECTED {
        Close(N.DATA_CHANNEL_CLOSED, false);
      }
    }

    method TimeoutFired()
      modifies this
      ensures View() == N.Step(old(View()), N.Timeout)
    {
      if timeout.Some? {
        Close(timeout.value, false);
      }
    }

    method Close(error: int, notify: bool)
      modifies this
      ensures View() == N.Step(old(View()), N.Close(error, notify))
    {
      if state == N.CLOSED {
        return;
      }
      state := N.CLOSED;
      CancelTimeout();
      if notify {
        sent := sent + [S.ConnectError(id, error)];
      }
      callbacks := callbacks + [N.Closed(error)];
    }

    // The transport callbacks, the timer and a close by the application.
    method External(e: N.Event)
      requires M.IsExternal(e)
      modifies this
      ensures View() == N.Step(old(View()), e)
    {
      match e {
        case ChannelsOpen => HandleChannelsOpen();
        case TransportState(transport) => HandleConnectionState(transport);
        case Timeout => TimeoutFired();
        case Close(error, notify) => Close(error, notify);
      }
    }

    // Inbound signaling, up to the await. `awaits` tells whether a description is now being applied.
    method HandleSignal(message: S.Message) returns (awaits: bool)
      modifies this, pc
      ensures View() == AfterSignal(old(View()), message)
      ensures awaits == Awaits(old(View()), message)
    {
      awaits := false;
      if state == N.CLOSED {
        return;
      }
      match message {
        case ConnectError(_, error) => HandleConnectError(error);
        case CandidateAdd(_, candidate) => HandleCandidate(candidate);
        case ConnectResponse(_, _) =>
          if isDialer {
            awaits := HandleResponse();
          }
        case ConnectRequest(_, _) =>
          awaits := !isDialer && state == N.IDLE;
      }
    }

    // A packet leaves only on a connected session, and then as the packet path takes it.
    method Send(data: bytes, kind: F.SendType) returns (ok: bool)
      modifies pc, pc.packets
      ensures View() == old(View())
      ensures ok == (state == N.CONNECTED && F.Accepts(data, kind))
      ensures pc.Reliable() == if ok && kind.Reliable? then SendAll(old(pc.Reliable()), F.Fragments(data))
                               else old(pc.Reliable())
      ensures pc.Unreliable() == if ok && kind.Unreliable? then SendAll(old(pc.Unreliable()), [F.Frame(0, data)])
                                 else old(pc.Unreliable())
    {
      if state != N.CONNECTED {
        return false;
      }
      ok := pc.Send(data, kind);
    }
  }

  // ---- the manager ----

  ghost function Objects(created: seq<Session>): set<object> {
    (set i | 0 <= i < |created| :: created[i] as object) + (set i | 0 <= i < |created| :: created[i].pc as object)
  }

  ghost predicate Distinct(created: seq<Session>) {
    forall i, j :: 0 <= i < j < |created| ==> created[i] != created[j] && created[i].pc != created[j].pc
  }

  ghost function Views(created: seq<Session>): seq<N.Session>
    reads Objects(created)
  {
    seq(|created|, i requires 0 <= i < |created| reads Objects(created) => created[i].View())
  }

  // The task a message leaves the session's handler suspended in.
  function Begun(who: nat, message: S.Message, first: bool): M.Task
    requires message.ConnectResponse? || message.ConnectRequest?
  {
    if message.ConnectResponse? then M.ApplyingAnswer(who, message.sdp)
    else M.ApplyingOffer(who, message.sdp, first)
  }

  lemma DispatchRuns(m: M.Manager, who: nat, message: S.Message, first: bool)
    requires M.WellFormed(m) && who < |m.sessions|
    ensures M.WellFormed(M.Dispatch(m, who, message, first))
    ensures var s := m.sessions[who];
            var s1 := AfterSignal(s, message);
            M.Dispatch(m, who, message, first)
            == M.Manager(if s.phase != N.CLOSED && s1.phase == N.CLOSED then m.routes - {s.id} else m.routes, m.parked,
                         m.sessions[who := s1],
                         if Awaits(s, message) then m.tasks + [Begun(who, message, first)] else m.tasks)
  {
    M.DispatchWellFormed(m, who, message, first);
  }

  class SessionManager {
    // Every session created, in order; a suspended coroutine holds its session by its index.
    var created: seq<Session>
    var tasks: seq<M.Task>
    // The sessions by connection id, and the candidates that arrived before theirs.
    var sessions: map<nat, nat>
    var pending: map<nat, seq<string>>
    ghost var history: seq<M.MEvent>

    ghost function View(): M.Manager
      reads this, Objects(created)
    {
      M.Manager(sessions, pending, Views(created), tasks)
    }

    ghost predicate Consistent()
      reads this, Objects(created)
    {
      Distinct(created) && M.WellFormed(View())
    }

    // The object is where the events it has handled lead the manager: whatever is proved of every
    // run holds of it.
    ghost predicate Valid()
      reads this, Objects(created)
    {
      Distinct(created) && View() == M.MRun(M.NEW_MANAGER, history)
    }

    constructor ()
      ensures Valid() && history == [] && created == []
    {
      created, tasks, sessions, pending, history := [], [], map[], map[], [];
    }

    ghost method Record(e: M.MEvent, before: M.Manager)
      requires Distinct(created) && before == M.MRun(M.NEW_MANAGER, history) && View() == M.MStep(before, e)
      modifies this`history
      ensures Valid() && history == old(history) + [e] && View() == old(View())
    {
      assert (history + [e])[..|history|] == history;
      history := history + [e];
    }

    // on_close, when the last step of the session called it.
    method SessionClosed(who: nat, before: N.Phase)
      requires who < |created|
      modifies this`sessions
      ensures sessions == if before != N.CLOSED && created[who].state == N.CLOSED
                          then old(sessions) - {created[who].id} else old(sessions)
    {
      if before != N.CLOSED && created[who].state == N.CLOSED {
        sessions := sessions - {created[who].id};
      }
    }

    method CreateSession(id: nat, isDialer: bool)
      requires Consistent()
      modifies this`created, this`sessions
      ensures Consistent() && View() == M.Create(old(View()), id, isDialer)
      ensures created[..|created| - 1] == old(created) && fresh(created[|created| - 1])
      ensures fresh(created[|created| - 1].pc)
    {
      var session := new Session(id, isDialer);
      sessions := sessions[id := |created|];
      created := created + [session];
    }

    method BufferPendingCandidate(id: nat, candidate: string)
      requires Consistent()
      modifies this`pending
      ensures Consistent() && View() == M.Park(old(View()), id, candidate)
    {
      if id !in pending {
        pending := pending[id := []];
      }
      if |pending[id]| < M.MAX_PENDING_CANDIDATES {
        pending := pending[id := pending[id] + [candidate]];
      }
    }

    method PopPending(id: nat) returns (parked: seq<string>)
      modifies this`pending
      ensures parked == if id in old(pending) then old(pending)[id] else []
      ensures pending == old(pending) - {id}
    {
      parked := if id in pending then pending[id] else [];
      pending := pending - {id};
    }

    method External(who: nat, e: N.Event)
      requires Valid() && who < |created| && M.IsExternal(e)
      modifies this`sessions, this`history, Objects(created)
      ensures created == old(created) && Valid() && history == old(history) + [M.External(who, e)]
      ensures View() == M.MStep(old(View()), M.External(who, e))
    {
      ghost var m := View();
      RunExternal(who, e);
      Record(M.External(who, e), m);
    }

    method RunExternal(who: nat, e: N.Event)
      requires Consistent() && who < |created| && M.IsExternal(e)
      modifies this`sessions, Objects(created)
      ensures created == old(created) && Distinct(created)
      ensures View() == M.MStep(old(View()), M.External(who, e))
    {
      var before := created[who].state;
      created[who].External(e);
      SessionClosed(who, before);
      assert Views(created) == old(Views(created))[who := N.Step(old(created[who].View()), e)];
    }

    // connect() and handle_signal(), up to their awaits.
    method Connect(id: nat)
      requires Valid()
      modifies this
      ensures Valid() && history == old(history) + [M.Connect(id)]
      ensures View() == M.MStep(old(View()), M.Connect(id))
    {
      ghost var m := View();
      CreateSession(id, true);
      tasks := tasks + [M.Offering(|created| - 1)];
      Record(M.Connect(id), m);
    }

    method HandleSignal(text: string)
      requires Valid()
      modifies this, Objects(created)
      ensures Valid() && history == old(history) + [M.Receive(text)]
      ensures View() == M.MStep(old(View()), M.Receive(text))
    {
      ghost var m := View();
      var parsed := S.Parse(text);
      if parsed.Some? {
        Route(parsed.value, text);
      }
      Record(M.Receive(text), m);
    }

    // What handle_signal() does with a parsed message.
    method Route(message: S.Message, ghost text: string)
      requires Consistent() && S.Parse(text) == Some(message)
      modifies this`created, this`sessions, this`pending, this`tasks, Objects(created)
      ensures Distinct(created) && View() == M.HandleSignal(old(View()), text)
    {
      if message.id in sessions {
        Dispatch(sessions[message.id], message, false);
        return;
      }
      match message {
        case ConnectRequest(id, _) =>
          CreateSession(id, false);
          Dispatch(|created| - 1, message, true);
        case CandidateAdd(id, candidate) =>
          BufferPendingCandidate(id, candidate);
        case _ =>
      }
    }

    method Dispatch(who: nat, message: S.Message, first: bool)
      requires Consistent() && who < |created|
      modifies this`sessions, this`tasks, created[who], created[who].pc
      ensures created == old(created) && Consistent()
      ensures View() == M.Dispatch(old(View()), who, message, first)
    {
      ghost var m := View();
      DispatchRuns(m, who, message, first);
      var before := created[who].state;
      var awaits := created[who].HandleSignal(message);
      SessionClosed(who, before);
      if awaits {
        tasks := tasks + [Begun(who, message, first)];
      }
      assert Views(created) == old(Views(created))[who := AfterSignal(old(created[who].View()), message)];
    }

    // ---- a coroutine resumes ----

    // The part of the manager's state a resumed coroutine finds: its session and what is parked.
    ghost predicate Resumes(i: nat, t: M.Task)
      reads this, Objects(created)
    {
      Consistent() && i < |tasks| && tasks[i] == t && !t.Done?
    }

    method OfferCreated(i: nat, who: nat, sdp: string)
      requires Resumes(i, M.Offering(who))
      modifies this`tasks, created[who]
      ensures Consistent() && View() == M.ResumeTask(old(View()), i, sdp)
    {
      ghost var m := View();
      M.ResumeRuns(m, i, sdp, N.OfferReady(sdp, true));
      created[who].OfferReady(sdp, true);
      tasks := tasks[i := M.Done];
      assert Views(created) == old(Views(created))[who := N.Step(old(created[who].View()), N.OfferReady(sdp, true))];
    }

    method AnswerApplied(i: nat, who: nat, answer: string, sdp: string)
      requires Resumes(i, M.ApplyingAnswer(who, answer))
      modifies this`tasks, created[who].pc
      ensures Consistent() && View() == M.ResumeTask(old(View()), i, sdp)
    {
      ghost var m := View();
      M.ResumeRuns(m, i, sdp, N.Described(answer));
      var again := created[who].DescriptionApplied(answer);
      tasks := tasks[i := if again then M.Flushing(who, 1, false, false) else M.Done];
      assert Views(created) == old(Views(created))[who := N.Step(old(created[who].View()), N.Described(answer))];
    }

    method OfferApplied(i: nat, who: nat, offer: string, first: bool, sdp: string)
      requires Resumes(i, M.ApplyingOffer(who, offer, first))
      modifies this`tasks, created[who].pc
      ensures Consistent() && View() == M.ResumeTask(old(View()), i, sdp)
    {
      ghost var m := View();
      M.ResumeRuns(m, i, sdp, N.Described(offer));
      var again := created[who].DescriptionApplied(offer);
      tasks := tasks[i := if again then M.Flushing(who, 1, true, first) else M.Answering(who, first)];
      assert Views(created) == old(Views(created))[who := N.Step(old(created[who].View()), N.Described(offer))];
    }

    method CandidateApplied(i: nat, who: nat, next: nat, answering: bool, first: bool, sdp: string)
      requires Resumes(i, M.Flushing(who, next, answering, first))
      modifies this`tasks, created[who].pc
      ensures Consistent() && View() == M.ResumeTask(old(View()), i, sdp)
    {
      ghost var m := View();
      M.ResumeRuns(m, i, sdp, N.Flush(next));
      var again := created[who].FlushResumed(next);
      tasks := tasks[i := if again then M.Flushing(who, next + 1, answering, first)
                          else if answering then M.Answering(who, first) else M.Done];
      assert Views(created) == old(Views(created))[who := N.Step(old(created[who].View()), N.Flush(next))];
    }

    // After the first answer the parked candidates are taken, and the first of them is replayed.
    method AnswerCreated(i: nat, who: nat, first: bool, sdp: string)
      requires Resumes(i, M.Answering(who, first))
      modifies this`tasks, this`pending, created[who], created[who].pc
      ensures Consistent() && View() == M.ResumeTask(old(View()), i, sdp)
    {
      ghost var m := View();
      ghost var event := M.EventOf(tasks[i], sdp, M.Parked(m, m.sessions[who].id)).value;
      M.ResumeRuns(m, i, sdp, event);
      created[who].AnswerReady(sdp, true);
      var next := M.Done;
      if first {
        next := TakeParked(who);
      }
      assert created[who].View() == N.Step(old(created[who].View()), event);
      tasks := tasks[i := next];
      assert Views(created) == old(Views(created))[who := created[who].View()];
    }

    // The handler that created the session takes the parked candidates and goes on to the first.
    method TakeParked(who: nat) returns (next: M.Task)
      requires who < |created| && created[who].state != N.CLOSED
      modifies this`pending, created[who].pc
      ensures pending == old(pending) - {created[who].id}
      ensures var parked := if created[who].id in old(pending) then old(pending)[created[who].id] else [];
              && next == (if parked == [] then M.Done else M.Replaying(who, parked[1..]))
              && created[who].View() == if parked == [] then old(created[who].View())
                                        else N.Step(old(created[who].View()), N.CandidateArrived(parked[0]))
    {
      var parked := PopPending(created[who].id);
      next := M.Done;
      if parked != [] {
        created[who].HandleCandidate(parked[0]);
        next := M.Replaying(who, parked[1..]);
      }
    }

    method CandidateReplayed(i: nat, who: nat, rest: seq<string>, sdp: string)
      requires Resumes(i, M.Replaying(who, rest))
      modifies this`tasks, created[who].pc
      ensures Consistent() && View() == M.ResumeTask(old(View()), i, sdp)
    {
      ghost var m := View();
      if rest == [] {
        M.ResumeWellFormed(m, i, sdp);
        tasks := tasks[i := M.Done];
      } else {
        var closed := created[who].state == N.CLOSED;
        M.ResumeRuns(m, i, sdp, N.CandidateArrived(rest[0]));
        created[who].HandleCandidate(rest[0]);
        tasks := tasks[i := if closed then M.Done else M.Replaying(who, rest[1..])];
        assert Views(created)
               == old(Views(created))[who := N.Step(old(created[who].View()), N.CandidateArrived(rest[0]))];
      }
    }

    method Resume(i: nat, sdp: string)
      requires Valid() && i < |tasks|
      modifies this`tasks, this`pending, this`history, Objects(created)
      ensures Valid() && history == old(history) + [M.Resume(i, sdp)]
      ensures View() == M.MStep(old(View()), M.Resume(i, sdp))
    {
      ghost var m := View();
      ResumeTask(i, sdp);
      Record(M.Resume(i, sdp), m);
    }

    method ResumeTask(i: nat, sdp: string)
      requires Consistent() && i < |tasks|
      modifies this`tasks, this`pending, Objects(created)
      ensures Consistent() && View() == M.ResumeTask(old(View()), i, sdp)
    {
      match tasks[i] {
        case Offering(who) => OfferCreated(i, who, sdp);
        case ApplyingAnswer(who, answer) => AnswerApplied(i, who, answer, sdp);
        case ApplyingOffer(who, offer, first) => OfferApplied(i, who, offer, first, sdp);
        case Flushing(who, next, answering, first) => CandidateApplied(i, who, next, answering, first, sdp);
        case Answering(who, first) => AnswerCreated(i, who, first, sdp);
        case Replaying(who, rest) => CandidateReplayed(i, who, rest, sdp);
        case Done =>
      }
    }

    // So the routing invariant holds of the object between any two of its methods.
    lemma RoutesAreSound()
      requires Valid()
      ensures R.RoutingOk(View())
    {
      R.RoutingInvariant(history);
    }

    // And each of its sessions has a timeout armed exactly while it waits.
    lemma TimersMatch(who: nat)
      requires Valid() && who < |created|
      ensures created[who].timeout == N.TimerFor(created[who].state)
    {
      R.TimersMatchPhases(history, who);
      assert View().sessions[who] == created[who].View();
    }
  }
}
