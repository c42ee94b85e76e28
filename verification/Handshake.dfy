// Two peers that negotiate: no one knows a connection id before it is drawn, and from every
// reachable world a dialer and a listener that hear each other end up connected.
module Handshake {
  import opened Basics
  import opened Lines
  import E = SdpEdits
  import L = Lan
  import P = PeerConnections
  import S = Signaling
  import opened Sessions
  import opened Managers
  import R = Routing
  import opened Agreement

  // ---- no id is known before it is drawn ----

  predicate HasId(m: Manager, id: nat) { exists k :: 0 <= k < |m.sessions| && m.sessions[k].id == id }

  predicate Knows(m: Manager, id: nat) { HasId(m, id) || id in m.parked }

  ghost predicate Drawn(w: World, id: nat) {
    exists n, k :: 0 <= n < |w| && 0 <= k < |w[n].sessions| && w[n].sessions[k].isDialer && w[n].sessions[k].id == id
  }

  ghost predicate OnlyDrawnIds(w: World) { forall n, id :: 0 <= n < |w| && Knows(w[n], id) ==> Drawn(w, id) }

  // The id an event brings.
  function Brought(e: MEvent): Option<nat> {
    match e
    case Connect(id) => Some(id)
    case Receive(text) => (match S.Parse(text) case None => None case Some(message) => Some(message.id))
    case _ => None
  }

  lemma ParkedGrows(m: Manager, e: MEvent, id: nat)
    requires WellFormed(m) && id in MStep(m, e).parked && id !in m.parked
    ensures Brought(e) == Some(id)
  {
  }

  lemma IdsGrow(m: Manager, e: MEvent, id: nat)
    requires WellFormed(m) && HasId(MStep(m, e), id) && !HasId(m, id)
    ensures Brought(e) == Some(id)
  {
    R.StepTouchesOneSession(m, e);
    var k :| 0 <= k < |MStep(m, e).sessions| && MStep(m, e).sessions[k].id == id;
    if k < |m.sessions| {
      SessionPersists(m, e, k);
    }
  }

  lemma DrawnPersists(w: World, n: nat, e: MEvent, id: nat)
    requires n < |w| && WellFormed(w[n]) && Drawn(w, id)
    ensures Drawn(w[n := MStep(w[n], e)], id)
  {
    var n', k :| 0 <= n' < |w| && 0 <= k < |w[n'].sessions| && w[n'].sessions[k].isDialer && w[n'].sessions[k].id == id;
    if n' == n {
      SessionPersists(w[n], e, k);
    }
    assert w[n := MStep(w[n], e)][n'].sessions[k].isDialer;
  }

  // A text on the wire carries an id that was drawn.
  lemma WireIdsAreDrawn(w: World, text: string, cut: S.Message)
    requires AllLocal(w) && OnlyDrawnIds(w) && OnTheWire(w, text) && S.Parse(text) == Some(cut)
    ensures Drawn(w, cut.id)
  {
    var isDialer, m := WireIsGenuine(w, text, cut);
    var n: nat, k: nat :| SentBy(w, n, k, isDialer, m);
    assert w[n].sessions[k].id == m.id == cut.id;
    assert HasId(w[n], cut.id);
  }

  lemma ConnectDraws(w: World, n: nat, id: nat)
    requires n < |w| && WellFormed(w[n])
    ensures Drawn(w[n := MStep(w[n], Connect(id))], id)
  {
    var m1 := MStep(w[n], Connect(id));
    assert m1.sessions[|w[n].sessions|] == Fresh(id, true);
    assert w[n := m1][n].sessions[|w[n].sessions|].isDialer;
  }

  lemma DrawnStep(w: World, n: nat, e: MEvent)
    requires AllLocal(w) && OnlyDrawnIds(w) && Enabled(w, n, e)
    ensures OnlyDrawnIds(w[n := MStep(w[n], e)])
  {
    var w1 := w[n := MStep(w[n], e)];
    forall n', id | 0 <= n' < |w1| && Knows(w1[n'], id)
      ensures Drawn(w1, id)
    {
      if Knows(w[n'], id) {
        DrawnPersists(w, n, e, id);
      } else {
        if HasId(w1[n'], id) {
          IdsGrow(w[n], e, id);
        } else {
          ParkedGrows(w[n], e, id);
        }
        if e.Connect? {
          ConnectDraws(w, n, id);
        } else {
          WireIdsAreDrawn(w, e.text, S.Parse(e.text).value);
          DrawnPersists(w, n, e, id);
        }
      }
    }
  }

  // In every run an id that a peer knows, of a session or of parked candidates, was drawn by a
  // dialer.
  lemma {:induction false} IdsAreDrawn(nodes: nat, events: seq<WEvent>)
    ensures OnlyDrawnIds(WRun(nodes, events))
    decreases |events|
  {
    if events != [] {
      var w, e := WRun(nodes, events[..|events| - 1]), events[|events| - 1];
      IdsAreDrawn(nodes, events[..|events| - 1]);
      WorldsKeep(nodes, events[..|events| - 1]);
      if Enabled(w, e.node, e.e) {
        DrawnStep(w, e.node, e.e);
      }
    }
  }

  lemma RoutedIsKnown(m: Manager, id: nat)
    requires WellFormed(m) && R.RoutesOk(m)
    ensures id in m.routes || id in m.parked ==> Knows(m, id)
  {
    if id in m.routes {
      assert m.sessions[m.routes[id]].id == id;
    }
  }

  lemma FreshIsNotDrawn(w: World, id: nat)
    ensures FreshId(w, id) <==> !Drawn(w, id)
  {
  }

  // So a dialer's fresh id is new to everyone.
  lemma FreshIsUnknown(nodes: nat, events: seq<WEvent>, id: nat, n: nat)
    requires FreshId(WRun(nodes, events), id) && n < |WRun(nodes, events)|
    ensures var m := WRun(nodes, events)[n]; WellFormed(m) && id !in m.routes && id !in m.parked && !HasId(m, id)
  {
    var w := WRun(nodes, events);
    IdsAreDrawn(nodes, events);
    WorldsKeep(nodes, events);
    RoutedIsKnown(w[n], id);
    FreshIsNotDrawn(w, id);
  }

  // ---- one manager, stretch by stretch ----

  // The session is this one, and its id leads to it.
  predicate Seat(m: Manager, who: nat, s: Session) {
    who < |m.sessions| && m.sessions[who] == s && s.id in m.routes && m.routes[s.id] == who
  }

  // connect() suspends in start().
  lemma Connects(m: Manager, id: nat)
    requires WellFormed(m)
    ensures var m1 := MStep(m, Connect(id));
            && WellFormed(m1) && Seat(m1, |m.sessions|, Fresh(id, true)) && m1.parked == m.parked
            && m1.tasks == m.tasks + [Offering(|m.sessions|)]
  {
    MStepWellFormed(m, Connect(id));
  }

  // A session that has sent its description and waits.
  predicate Waiting(s: Session, s1: Session, phase: Phase, code: int, description: S.Message, candidates: seq<string>) {
    && s1 == s.(phase := phase, timer := Some(code), sent := s1.sent)
    && Appends(s.sent, s1.sent, description, candidates)
  }

  // start() sends the offer: the request with the SDP's other lines, then its candidates, in order.
  lemma StartSends(m: Manager, i: nat, who: nat, s: Session, sdp: string)
    requires WellFormed(m) && i < |m.tasks| && m.tasks[i] == Offering(who) && Seat(m, who, s)
    ensures var m1 := MStep(m, Resume(i, sdp));
            && WellFormed(m1) && m1.parked == m.parked && m1.tasks == m.tasks[i := Done]
            && who < |m1.sessions| && Seat(m1, who, m1.sessions[who])
            && Waiting(s, m1.sessions[who], OFFER_SENT, 14,
                       S.ConnectRequest(s.id, E.WithoutCandidates(sdp)), E.Candidates(sdp))
  {
    ResumeRuns(m, i, sdp, OfferReady(sdp, true));
    SendsExactly(s, OfferReady(sdp, true));
  }

  // A request under an unknown id makes a listener, which starts applying the offer.
  lemma RequestMakesListener(m: Manager, text: string, id: nat, sdp: string)
    requires WellFormed(m) && S.Parse(text) == Some(S.ConnectRequest(id, sdp)) && id !in m.routes
    ensures var m1 := MStep(m, Receive(text));
            && WellFormed(m1) && Seat(m1, |m.sessions|, Fresh(id, false)) && m1.parked == m.parked
            && m1.tasks == m.tasks + [ApplyingOffer(|m.sessions|, sdp, true)]
  {
    MStepWellFormed(m, Receive(text));
  }

  // A candidate is buffered before the description, and applied after it.
  function WithCandidate(s: Session, value: string): Session {
    if s.ice.remoteSet
    then s.(ice := s.ice.(applied := s.ice.applied + [value], arrived := s.ice.arrived + [value]))
    else s.(ice := s.ice.(pending := s.ice.pending + [value], arrived := s.ice.arrived + [value]))
  }

  lemma HearsCandidate(m: Manager, text: string, who: nat, s: Session, value: string)
    requires WellFormed(m) && Seat(m, who, s) && s.phase != CLOSED
    requires S.Parse(text) == Some(S.CandidateAdd(s.id, "candidate:" + value))
    ensures var m1 := MStep(m, Receive(text));
            WellFormed(m1) && Seat(m1, who, WithCandidate(s, value)) && m1.parked == m.parked && m1.tasks == m.tasks
  {
    MStepWellFormed(m, Receive(text));
    P.CandidateIsUnprefixed(value, "");
    R.SignalTasks(m, text);
  }

  // The description is set; with candidates waiting, the first of them is applied at once.
  lemma Describes(m: Manager, i: nat, who: nat, s: Session, sdp: string)
    requires WellFormed(m) && i < |m.tasks| && Seat(m, who, s)
    requires m.tasks[i] == ApplyingAnswer(who, sdp) || m.tasks[i] == ApplyingOffer(who, sdp, true)
    ensures var m1 := MStep(m, Resume(i, ""));
            var waiting := s.ice.pending;
            && WellFormed(m1) && m1.parked == m.parked
            && Seat(m1, who, s.(ice := s.ice.(remotes := s.ice.remotes + [sdp], remoteSet := true,
                                              applied := s.ice.applied + waiting[..if waiting == [] then 0 else 1])))
            && m1.tasks == m.tasks[i := if waiting != [] then Flushing(who, 1, m.tasks[i].ApplyingOffer?, m.tasks[i].ApplyingOffer?)
                                        else if m.tasks[i].ApplyingOffer? then Answering(who, true) else Done]
  {
    ResumeRuns(m, i, "", Described(sdp));
    assert s.ice.pending != [] ==> s.ice.pending[..1] == [s.ice.pending[0]];
    assert s.ice.pending == [] ==> s.ice.applied + [] == s.ice.applied;
  }

  // A turn of the flush loop: the next candidate waiting, or the end of the loop.
  lemma Flushes(m: Manager, i: nat, who: nat, s: Session, next: nat)
    requires WellFormed(m) && i < |m.tasks| && Seat(m, who, s)
    requires m.tasks[i] == Flushing(who, next, true, true) && next <= |s.ice.pending|
    ensures var m1 := MStep(m, Resume(i, ""));
            && WellFormed(m1) && m1.parked == m.parked
            && if next < |s.ice.pending|
               then && Seat(m1, who, s.(ice := s.ice.(applied := s.ice.applied + [s.ice.pending[next]])))
                    && m1.tasks == m.tasks[i := Flushing(who, next + 1, true, true)]
               else && Seat(m1, who, s.(ice := s.ice.(pending := [])))
                    && m1.tasks == m.tasks[i := Answering(who, true)]
  {
    ResumeRuns(m, i, "", Flush(next));
  }

  // The answer goes out, the response with the SDP's other lines and then its candidates.
  lemma AnswerSends(m: Manager, i: nat, who: nat, s: Session, sdp: string)
    requires WellFormed(m) && i < |m.tasks| && m.tasks[i] == Answering(who, true) && Seat(m, who, s)
    requires s.id !in m.parked
    ensures var m1 := MStep(m, Resume(i, sdp));
            && WellFormed(m1) && m1.parked == m.parked && m1.tasks == m.tasks[i := Done]
            && who < |m1.sessions| && Seat(m1, who, m1.sessions[who])
            && Waiting(s, m1.sessions[who], ANSWER_SENT, 15,
                       S.ConnectResponse(s.id, E.WithoutCandidates(sdp)), E.Candidates(sdp))
  {
    ResumeRuns(m, i, sdp, AnswerReady(sdp, true, None));
    SendsExactly(s, AnswerReady(sdp, true, None));
  }

  // The response reaches the dialer that waits for it.
  lemma HearsAnswer(m: Manager, text: string, who: nat, s: Session, sdp: string)
    requires WellFormed(m) && Seat(m, who, s) && s.isDialer && s.phase == OFFER_SENT
    requires S.Parse(text) == Some(S.ConnectResponse(s.id, sdp))
    ensures var m1 := MStep(m, Receive(text));
            && WellFormed(m1) && Seat(m1, who, s.(phase := NEGOTIATING, timer := Some(15))) && m1.parked == m.parked
            && m1.tasks == m.tasks + [ApplyingAnswer(who, sdp)]
  {
    MStepWellFormed(m, Receive(text));
  }

  // Both channels are open.
  lemma Opens(m: Manager, who: nat, s: Session)
    requires WellFormed(m) && Seat(m, who, s) && s.phase != CONNECTED && s.phase != CLOSED
    ensures var m1 := MStep(m, External(who, ChannelsOpen));
            && WellFormed(m1) && Seat(m1, who, s.(phase := CONNECTED, timer := None, log := s.log + [Opened]))
            && m1.parked == m.parked && m1.tasks == m.tasks
  {
    MStepWellFormed(m, External(who, ChannelsOpen));
  }

  // ---- one manager, a stretch of its run ----

  lemma {:induction false} MRunConcat(m: Manager, a: seq<MEvent>, b: seq<MEvent>)
    requires WellFormed(m)
    ensures MRun(m, a + b) == MRun(MRun(m, a), b)
  {
    if b == [] {
      assert a + b == a;
    } else {
      MRunConcat(m, a, b[..|b| - 1]);
      assert (a + b)[..|a + b| - 1] == a + b[..|b| - 1];
    }
  }

  lemma MRunOne(m: Manager, e: MEvent)
    requires WellFormed(m)
    ensures WellFormed(MStep(m, e)) && MRun(m, [e]) == MStep(m, e)
  {
    MStepWellFormed(m, e);
    assert [e][..0] == [];
  }

  lemma MRunThen(m: Manager, a: seq<MEvent>, e: MEvent)
    requires WellFormed(m)
    ensures WellFormed(MStep(MRun(m, a), e)) && MRun(m, a + [e]) == MStep(MRun(m, a), e)
  {
    MRunConcat(m, a, [e]);
    MRunOne(MRun(m, a), e);
  }

  // The text of a candidate line's value, as the peer gets it.
  function CandidateText(id: nat, value: string): string { S.Serialize(S.CandidateAdd(id, "candidate:" + value)) }

  function Texts(id: nat, values: seq<string>): seq<MEvent> {
    seq(|values|, i requires 0 <= i < |values| => Receive(CandidateText(id, values[i])))
  }

  function WithCandidates(s: Session, values: seq<string>): Session {
    if s.ice.remoteSet
    then s.(ice := s.ice.(applied := s.ice.applied + values, arrived := s.ice.arrived + values))
    else s.(ice := s.ice.(pending := s.ice.pending + values, arrived := s.ice.arrived + values))
  }

  lemma OneMoreCandidate(s: Session, values: seq<string>, value: string)
    ensures WithCandidate(WithCandidates(s, values), value) == WithCandidates(s, values + [value])
    ensures WithCandidates(s, []) == s
  {
    assert s.ice.applied + values + [value] == s.ice.applied + (values + [value]);
    assert s.ice.arrived + values + [value] == s.ice.arrived + (values + [value]);
    assert s.ice.pending + values + [value] == s.ice.pending + (values + [value]);
    assert s.ice.applied + [] == s.ice.applied && s.ice.arrived + [] == s.ice.arrived;
    assert s.ice.pending + [] == s.ice.pending;
  }

  lemma TextsNext(id: nat, values: seq<string>, n: nat)
    requires n < |values|
    ensures Texts(id, values[..n + 1]) == Texts(id, values[..n]) + [Receive(CandidateText(id, values[n]))]
  {
  }

  lemma SliceNext(values: seq<string>, n: nat)
    requires n < |values|
    ensures values[..n + 1] == values[..n] + [values[n]]
  {
  }

  // All that changed: the session.
  predicate Now(m: Manager, m1: Manager, who: nat, s: Session) {
    WellFormed(m1) && Seat(m1, who, s) && m1.parked == m.parked && m1.tasks == m.tasks
  }

  lemma HearsOneMore(m: Manager, who: nat, s: Session, values: seq<string>, value: string) returns (m1: Manager)
    requires WellFormed(m) && Seat(m, who, WithCandidates(s, values)) && s.phase != CLOSED && s.id <= U64_MAX
    ensures m1 == MStep(m, Receive(CandidateText(s.id, value))) && Now(m, m1, who, WithCandidates(s, values + [value]))
  {
    OneMoreCandidate(s, values, value);
    S.RoundTrip(S.CandidateAdd(s.id, "candidate:" + value));
    HearsCandidate(m, CandidateText(s.id, value), who, WithCandidates(s, values), value);
    m1 := MStep(m, Receive(CandidateText(s.id, value)));
  }

  // One event more.
  lemma MRunSnoc(m: Manager, a: seq<MEvent>, m0: Manager, e: MEvent, all: seq<MEvent>)
    requires WellFormed(m) && m0 == MRun(m, a) && all == a + [e]
    ensures WellFormed(MStep(m0, e)) && MRun(m, all) == MStep(m0, e)
  {
    MRunThen(m, a, e);
  }

  lemma HearsStep(m: Manager, m0: Manager, who: nat, s: Session, values: seq<string>, n: nat) returns (m1: Manager)
    requires WellFormed(m) && s.phase != CLOSED && s.id <= U64_MAX && n < |values|
    requires m0 == MRun(m, Texts(s.id, values[..n])) && Now(m, m0, who, WithCandidates(s, values[..n]))
    ensures m1 == MRun(m, Texts(s.id, values[..n + 1])) && Now(m, m1, who, WithCandidates(s, values[..n + 1]))
  {
    m1 := HearsOneMore(m0, who, s, values[..n], values[n]);
    TextsNext(s.id, values, n);
    SliceNext(values, n);
    MRunSnoc(m, Texts(s.id, values[..n]), m0, Receive(CandidateText(s.id, values[n])), Texts(s.id, values[..n + 1]));
  }

  lemma HearsNone(m: Manager, who: nat, s: Session, values: seq<string>)
    requires WellFormed(m) && Seat(m, who, s)
    ensures m == MRun(m, Texts(s.id, values[..0])) && Now(m, m, who, WithCandidates(s, values[..0]))
  {
    OneMoreCandidate(s, [], "");
    assert Texts(s.id, values[..0]) == [] && values[..0] == [];
  }

  lemma {:induction false} HearsFirst(m: Manager, who: nat, s: Session, values: seq<string>, n: nat) returns (m1: Manager)
    requires WellFormed(m) && Seat(m, who, s) && s.phase != CLOSED && s.id <= U64_MAX && n <= |values|
    ensures m1 == MRun(m, Texts(s.id, values[..n])) && Now(m, m1, who, WithCandidates(s, values[..n]))
    decreases n
  {
    if n == 0 {
      HearsNone(m, who, s, values);
      m1 := m;
    } else {
      var m0 := HearsFirst(m, who, s, values, n - 1);
      m1 := HearsStep(m, m0, who, s, values, n - 1);
    }
  }

  lemma HearsCandidates(m: Manager, who: nat, s: Session, values: seq<string>) returns (m1: Manager)
    requires WellFormed(m) && Seat(m, who, s) && s.phase != CLOSED && s.id <= U64_MAX
    ensures m1 == MRun(m, Texts(s.id, values)) && Now(m, m1, who, WithCandidates(s, values))
  {
    m1 := HearsFirst(m, who, s, values, |values|);
    assert values[..|values|] == values;
  }

  function Resumes(i: nat, times: nat): seq<MEvent> { seq(times, _ => Resume(i, "")) }

  // The description applied, and all the candidates that waited for it.
  function Applied(s: Session, sdp: string): Session {
    s.(ice := s.ice.(remotes := s.ice.remotes + [sdp], remoteSet := true,
                     applied := s.ice.applied + s.ice.pending, pending := []))
  }

  // The same, with only the first n of them.
  function Applying(s: Session, sdp: string, n: nat): Session
    requires n <= |s.ice.pending|
  {
    s.(ice := s.ice.(remotes := s.ice.remotes + [sdp], remoteSet := true,
                     applied := s.ice.applied + s.ice.pending[..n]))
  }

  lemma OneMoreApplied(s: Session, sdp: string, n: nat)
    requires n < |s.ice.pending|
    ensures Applying(s, sdp, n + 1)
            == Applying(s, sdp, n).(ice := Applying(s, sdp, n).ice.(
                 applied := Applying(s, sdp, n).ice.applied + [s.ice.pending[n]]))
  {
    assert s.ice.pending[..n + 1] == s.ice.pending[..n] + [s.ice.pending[n]];
  }

  lemma ResumesNext(i: nat, times: nat)
    ensures Resumes(i, times + 1) == Resumes(i, times) + [Resume(i, "")]
  {
  }

  // The same, in the middle of the loop.
  predicate Midway(m: Manager, m1: Manager, i: nat, who: nat, s: Session, t: Task)
    requires i < |m.tasks|
  {
    WellFormed(m1) && Seat(m1, who, s) && m1.parked == m.parked && m1.tasks == m.tasks[i := t]
  }

  lemma FlushesFirst(m: Manager, i: nat, who: nat, s: Session, sdp: string) returns (m1: Manager)
    requires WellFormed(m) && i < |m.tasks| && m.tasks[i] == ApplyingOffer(who, sdp, true) && Seat(m, who, s)
    ensures m1 == MRun(m, Resumes(i, 1))
    ensures if s.ice.pending == [] then Midway(m, m1, i, who, Applied(s, sdp), Answering(who, true))
            else Midway(m, m1, i, who, Applying(s, sdp, 1), Flushing(who, 1, true, true))
  {
    assert Resumes(i, 1) == [Resume(i, "")];
    MRunOne(m, Resume(i, ""));
    Describes(m, i, who, s, sdp);
    m1 := MRun(m, Resumes(i, 1));
  }

  lemma FlushesNext(m: Manager, m0: Manager, i: nat, who: nat, s: Session, sdp: string, n: nat) returns (m1: Manager)
    requires WellFormed(m) && i < |m.tasks| && m0 == MRun(m, Resumes(i, n)) && 0 < n <= |s.ice.pending|
    requires Midway(m, m0, i, who, Applying(s, sdp, n), Flushing(who, n, true, true))
    ensures m1 == MRun(m, Resumes(i, n + 1))
    ensures if n == |s.ice.pending| then Midway(m, m1, i, who, Applied(s, sdp), Answering(who, true))
            else Midway(m, m1, i, who, Applying(s, sdp, n + 1), Flushing(who, n + 1, true, true))
  {
    ResumesNext(i, n);
    MRunSnoc(m, Resumes(i, n), m0, Resume(i, ""), Resumes(i, n + 1));
    Flushes(m0, i, who, Applying(s, sdp, n), n);
    m1 := MStep(m0, Resume(i, ""));
    if n < |s.ice.pending| {
      OneMoreApplied(s, sdp, n);
    } else {
      assert s.ice.pending[..n] == s.ice.pending;
    }
  }

  lemma {:induction false} FlushesUpTo(m: Manager, i: nat, who: nat, s: Session, sdp: string, n: nat) returns (m1: Manager)
    requires WellFormed(m) && i < |m.tasks| && m.tasks[i] == ApplyingOffer(who, sdp, true) && Seat(m, who, s)
    requires 0 < n <= |s.ice.pending|
    ensures m1 == MRun(m, Resumes(i, n)) && Midway(m, m1, i, who, Applying(s, sdp, n), Flushing(who, n, true, true))
    decreases n
  {
    if n == 1 {
      m1 := FlushesFirst(m, i, who, s, sdp);
    } else {
      var m0 := FlushesUpTo(m, i, who, s, sdp, n - 1);
      m1 := FlushesNext(m, m0, i, who, s, sdp, n - 1);
    }
  }

  // With k candidates waiting the offer is applied after k + 1 resumptions.
  lemma AppliesOffer(m: Manager, i: nat, who: nat, s: Session, sdp: string) returns (m1: Manager)
    requires WellFormed(m) && i < |m.tasks| && m.tasks[i] == ApplyingOffer(who, sdp, true) && Seat(m, who, s)
    ensures m1 == MRun(m, Resumes(i, |s.ice.pending| + 1)) && Midway(m, m1, i, who, Applied(s, sdp), Answering(who, true))
  {
    if s.ice.pending == [] {
      m1 := FlushesFirst(m, i, who, s, sdp);
    } else {
      var m0 := FlushesUpTo(m, i, who, s, sdp, |s.ice.pending|);
      m1 := FlushesNext(m, m0, i, who, s, sdp, |s.ice.pending|);
    }
  }

  // ---- the two sides ----

  // One side's candidates as the other applies them: the values of the candidate lines.
  predicate AreValues(values: seq<string>, sdp: string) {
    |values| == |E.Candidates(sdp)| && forall i :: 0 <= i < |values| ==> E.Candidates(sdp)[i] == "candidate:" + values[i]
  }

  // The session has sent this description and then these candidates, and nothing else.
  predicate HasSent(s: Session, description: S.Message, candidates: seq<string>) {
    Appends([], s.sent, description, candidates)
  }

  // A listener's part: k of the candidates come before the offer is applied, the others after.
  function ListenerPart(id: nat, j: nat, offer: string, values: seq<string>, k: nat, answer: string): seq<MEvent>
    requires k <= |values|
  {
    Early(id, offer, values[..k]) + Resumes(j, k + 1) + [Resume(j, answer)] + Texts(id, values[k..])
  }

  predicate ListenerDone(s: Session, id: nat, offer: string, values: seq<string>, answer: string) {
    && s == Session(id, false, ANSWER_SENT, Some(15), P.Ice([offer], true, [], values, values), s.sent, [])
    && HasSent(s, S.ConnectResponse(id, E.WithoutCandidates(answer)), E.Candidates(answer))
  }

  function Prepared(id: nat, offer: string, values: seq<string>): Session {
    Session(id, false, IDLE, None, P.Ice([offer], true, [], values, values), [], [])
  }

  lemma BufferedThenApplied(id: nat, offer: string, values: seq<string>)
    ensures var s := WithCandidates(Fresh(id, false), values);
            s.ice.pending == values && s.id == id && s.phase != CLOSED && Applied(s, offer) == Prepared(id, offer, values)
  {
    assert [] + values == values && [] + [offer] == [offer];
  }

  // The request and the candidates that come before the offer is applied.
  function Early(id: nat, offer: string, values: seq<string>): seq<MEvent> {
    [Receive(S.Serialize(S.ConnectRequest(id, offer)))] + Texts(id, values)
  }

  // The session is this one now, and these coroutines have been started for it.
  predicate Seated(m: Manager, m1: Manager, who: nat, s: Session, more: seq<Task>) {
    WellFormed(m1) && Seat(m1, who, s) && m1.parked == m.parked && m1.tasks == m.tasks + more
  }

  lemma MRunBoth(m: Manager, a: seq<MEvent>, m0: Manager, b: seq<MEvent>, m1: Manager, all: seq<MEvent>)
    requires WellFormed(m) && WellFormed(m0) && m0 == MRun(m, a) && m1 == MRun(m0, b) && all == a + b
    ensures m1 == MRun(m, all)
  {
    MRunConcat(m, a, b);
  }

  lemma ListenerMade(m: Manager, id: nat, offer: string) returns (m1: Manager)
    requires WellFormed(m) && id !in m.routes && id <= U64_MAX
    ensures m1 == MRun(m, [Receive(S.Serialize(S.ConnectRequest(id, offer)))])
    ensures Seated(m, m1, |m.sessions|, Fresh(id, false), [ApplyingOffer(|m.sessions|, offer, true)])
  {
    S.RoundTrip(S.ConnectRequest(id, offer));
    RequestMakesListener(m, S.Serialize(S.ConnectRequest(id, offer)), id, offer);
    MRunOne(m, Receive(S.Serialize(S.ConnectRequest(id, offer))));
    m1 := MStep(m, Receive(S.Serialize(S.ConnectRequest(id, offer))));
  }

  lemma ListenerBuffers(m: Manager, id: nat, offer: string, values: seq<string>) returns (m1: Manager)
    requires WellFormed(m) && id !in m.routes && id <= U64_MAX
    ensures m1 == MRun(m, Early(id, offer, values))
    ensures Seated(m, m1, |m.sessions|, WithCandidates(Fresh(id, false), values), [ApplyingOffer(|m.sessions|, offer, true)])
  {
    var m0 := ListenerMade(m, id, offer);
    m1 := HearsCandidates(m0, |m.sessions|, Fresh(id, false), values);
    var first := [Receive(S.Serialize(S.ConnectRequest(id, offer)))];
    MRunBoth(m, first, m0, Texts(id, values), m1, Early(id, offer, values));
  }

  // Up to the point where the offer is applied.
  lemma ListenerApplies(m: Manager, id: nat, offer: string, values: seq<string>) returns (m1: Manager)
    requires WellFormed(m) && id !in m.routes && id <= U64_MAX
    ensures m1 == MRun(m, Early(id, offer, values) + Resumes(|m.tasks|, |values| + 1))
    ensures Seated(m, m1, |m.sessions|, Prepared(id, offer, values), [Answering(|m.sessions|, true)])
  {
    var m0 := ListenerBuffers(m, id, offer, values);
    BufferedThenApplied(id, offer, values);
    m1 := AppliesOffer(m0, |m.tasks|, |m.sessions|, WithCandidates(Fresh(id, false), values), offer);
    var early, resumes := Early(id, offer, values), Resumes(|m.tasks|, |values| + 1);
    MRunBoth(m, early, m0, resumes, m1, early + resumes);
  }

  // Up to the point where the answer has gone out.
  function Half(id: nat, j: nat, offer: string, values: seq<string>, answer: string): seq<MEvent> {
    Early(id, offer, values) + Resumes(j, |values| + 1) + [Resume(j, answer)]
  }

  lemma Replied(m: Manager, j: nat, l: nat, id: nat, offer: string, values: seq<string>, answer: string) returns (m1: Manager)
    requires WellFormed(m) && j < |m.tasks| && m.tasks[j] == Answering(l, true) && Seat(m, l, Prepared(id, offer, values))
    requires id !in m.parked
    ensures m1 == MStep(m, Resume(j, answer)) && WellFormed(m1) && l < |m1.sessions|
    ensures Seat(m1, l, m1.sessions[l]) && ListenerDone(m1.sessions[l], id, offer, values, answer)
  {
    AnswerSends(m, j, l, Prepared(id, offer, values), answer);
    m1 := MStep(m, Resume(j, answer));
  }

  lemma ListenerSends(m: Manager, id: nat, offer: string, values: seq<string>, answer: string) returns (m1: Manager)
    requires WellFormed(m) && id !in m.routes && id !in m.parked && id <= U64_MAX
    ensures m1 == MRun(m, Half(id, |m.tasks|, offer, values, answer))
    ensures var l := |m.sessions|;
            && WellFormed(m1) && l < |m1.sessions| && Seat(m1, l, m1.sessions[l])
            && ListenerDone(m1.sessions[l], id, offer, values, answer)
  {
    var j, l := |m.tasks|, |m.sessions|;
    var m0 := ListenerApplies(m, id, offer, values);
    m1 := Replied(m0, j, l, id, offer, values, answer);
    MRunSnoc(m, Early(id, offer, values) + Resumes(j, |values| + 1), m0, Resume(j, answer), Half(id, j, offer, values, answer));
  }

  lemma MoreDone(s: Session, id: nat, offer: string, values: seq<string>, k: nat, answer: string)
    requires k <= |values| && ListenerDone(s, id, offer, values[..k], answer)
    ensures ListenerDone(WithCandidates(s, values[k..]), id, offer, values, answer)
  {
    assert values == values[..k] + values[k..];
  }

  lemma ListenerAnswers(m: Manager, id: nat, offer: string, values: seq<string>, k: nat, answer: string) returns (m1: Manager)
    requires WellFormed(m) && id !in m.routes && id !in m.parked && id <= U64_MAX && k <= |values|
    ensures m1 == MRun(m, ListenerPart(id, |m.tasks|, offer, values, k, answer))
    ensures var l := |m.sessions|;
            && WellFormed(m1) && l < |m1.sessions| && Seat(m1, l, m1.sessions[l])
            && ListenerDone(m1.sessions[l], id, offer, values, answer)
  {
    var l := |m.sessions|;
    var m0 := ListenerSends(m, id, offer, values[..k], answer);
    m1 := HearsCandidates(m0, l, m0.sessions[l], values[k..]);
    MoreDone(m0.sessions[l], id, offer, values, k, answer);
    var half := Half(id, |m.tasks|, offer, values[..k], answer);
    MRunBoth(m, half, m0, Texts(id, values[k..]), m1, ListenerPart(id, |m.tasks|, offer, values, k, answer));
  }

  // A dialer's part from the response on.
  function DialerPart(id: nat, i: nat, answer: string, values: seq<string>): seq<MEvent> {
    [Receive(S.Serialize(S.ConnectResponse(id, answer)))] + [Resume(i, "")] + Texts(id, values)
  }

  predicate Asking(s: Session) { s == Session(s.id, true, OFFER_SENT, Some(14), P.NEW_ICE, s.sent, []) }

  function Told(s: Session, answer: string): Session {
    s.(phase := NEGOTIATING, timer := Some(15), ice := P.Ice([answer], true, [], [], []))
  }

  lemma DialerTold(m: Manager, who: nat, s: Session, answer: string) returns (m1: Manager)
    requires WellFormed(m) && Seat(m, who, s) && s.id <= U64_MAX && Asking(s)
    ensures m1 == MRun(m, [Receive(S.Serialize(S.ConnectResponse(s.id, answer)))])
    ensures Seated(m, m1, who, s.(phase := NEGOTIATING, timer := Some(15)), [ApplyingAnswer(who, answer)])
  {
    var text := S.Serialize(S.ConnectResponse(s.id, answer));
    S.RoundTrip(S.ConnectResponse(s.id, answer));
    HearsAnswer(m, text, who, s, answer);
    MRunOne(m, Receive(text));
    m1 := MStep(m, Receive(text));
  }

  lemma DialerDescribes(m: Manager, who: nat, s: Session, answer: string) returns (m1: Manager)
    requires WellFormed(m) && Seat(m, who, s) && s.id <= U64_MAX && Asking(s)
    ensures m1 == MRun(m, [Receive(S.Serialize(S.ConnectResponse(s.id, answer)))] + [Resume(|m.tasks|, "")])
    ensures WellFormed(m1) && Seat(m1, who, Told(s, answer))
  {
    var heard := [Receive(S.Serialize(S.ConnectResponse(s.id, answer)))];
    var m0 := DialerTold(m, who, s, answer);
    var s0 := s.(phase := NEGOTIATING, timer := Some(15));
    Describes(m0, |m.tasks|, who, s0, answer);
    assert s0.ice.remotes + [answer] == [answer];
    m1 := MStep(m0, Resume(|m.tasks|, ""));
    MRunSnoc(m, heard, m0, Resume(|m.tasks|, ""), heard + [Resume(|m.tasks|, "")]);
  }

  lemma DialerApplies(m: Manager, who: nat, s: Session, answer: string, values: seq<string>) returns (m1: Manager)
    requires WellFormed(m) && Seat(m, who, s) && s.id <= U64_MAX && Asking(s)
    ensures m1 == MRun(m, DialerPart(s.id, |m.tasks|, answer, values))
    ensures Seat(m1, who, s.(phase := NEGOTIATING, timer := Some(15), ice := P.Ice([answer], true, [], values, values)))
  {
    var start := [Receive(S.Serialize(S.ConnectResponse(s.id, answer)))] + [Resume(|m.tasks|, "")];
    var m0 := DialerDescribes(m, who, s, answer);
    m1 := HearsCandidates(m0, who, Told(s, answer), values);
    assert [] + values == values;
    MRunBoth(m, start, m0, Texts(s.id, values), m1, DialerPart(s.id, |m.tasks|, answer, values));
  }

  // ---- the world ----

  function At(n: nat, events: seq<MEvent>): seq<WEvent> {
    seq(|events|, i requires 0 <= i < |events| => WEvent(n, events[i]))
  }

  lemma {:induction false} NodesStay(nodes: nat, events: seq<WEvent>)
    ensures |WRun(nodes, events)| == nodes
    decreases |events|
  {
    if events != [] {
      NodesStay(nodes, events[..|events| - 1]);
    }
  }

  lemma WRunThen(nodes: nat, past: seq<WEvent>, e: WEvent)
    ensures WRun(nodes, past + [e]) == WStep(WRun(nodes, past), e)
  {
    assert (past + [e])[..|past|] == past;
  }

  lemma OnTheWirePersists(w: World, n: nat, e: MEvent, text: string)
    requires n < |w| && WellFormed(w[n]) && OnTheWire(w, text)
    ensures OnTheWire(w[n := MStep(w[n], e)], text)
  {
    var isDialer, m :| SomeSent(w, isDialer, m) && text in L.Heard(S.Serialize(m));
    SomeSentPersists(w, n, e, isDialer, m);
  }

  // Nothing is dialed, and what is heard is on the wire.
  ghost predicate Hearable(w: World, events: seq<MEvent>) {
    forall e :: e in events ==> !e.Connect? && (e.Receive? ==> OnTheWire(w, e.text))
  }

  predicate OnlyNode(w: World, w1: World, n: nat) {
    |w1| == |w| && forall n' :: 0 <= n' < |w| && n' != n ==> w1[n'] == w[n']
  }

  ghost predicate StillHeard(w: World, w1: World) {
    forall text :: OnTheWire(w, text) ==> OnTheWire(w1, text)
  }

  lemma NodeSteps(nodes: nat, past: seq<WEvent>, n: nat, e: MEvent)
    requires n < nodes && Hearable(WRun(nodes, past), [e])
    ensures var w, w1 := WRun(nodes, past), WRun(nodes, past + [WEvent(n, e)]);
            && |w| == nodes && WellFormed(w[n]) && OnlyNode(w, w1, n) && w1[n] == MStep(w[n], e) && StillHeard(w, w1)
  {
    var w := WRun(nodes, past);
    NodesStay(nodes, past);
    WorldsKeep(nodes, past);
    WRunThen(nodes, past, WEvent(n, e));
    assert e in [e] && Enabled(w, n, e);
    forall text | OnTheWire(w, text)
      ensures OnTheWire(w[n := MStep(w[n], e)], text)
    {
      OnTheWirePersists(w, n, e, text);
    }
  }

  lemma AtNext(n: nat, events: seq<MEvent>, e: MEvent, past: seq<WEvent>)
    ensures past + At(n, events + [e]) == past + At(n, events) + [WEvent(n, e)]
  {
  }

  lemma HearableParts(w: World, w1: World, events: seq<MEvent>, e: MEvent)
    requires Hearable(w, events + [e]) && StillHeard(w, w1)
    ensures Hearable(w, events) && Hearable(w1, [e])
  {
    assert e in events + [e] && forall e' :: e' in events ==> e' in events + [e];
  }

  // A stretch of one node's run.
  lemma {:induction false} NodeRuns(nodes: nat, past: seq<WEvent>, n: nat, events: seq<MEvent>)
    requires n < nodes && Hearable(WRun(nodes, past), events)
    ensures var w, w1 := WRun(nodes, past), WRun(nodes, past + At(n, events));
            && |w| == nodes && WellFormed(w[n]) && OnlyNode(w, w1, n) && w1[n] == MRun(w[n], events) && StillHeard(w, w1)
  {
    var w := WRun(nodes, past);
    if events == [] {
      NodesStay(nodes, past);
      WorldsKeep(nodes, past);
      assert past + At(n, events) == past;
    } else {
      var front, last := events[..|events| - 1], events[|events| - 1];
      assert events == front + [last];
      HearableParts(w, w, front, last);
      NodeRuns(nodes, past, n, front);
      var w1 := WRun(nodes, past + At(n, front));
      HearableParts(w, w1, front, last);
      AtNext(n, front, last, past);
      NodeSteps(nodes, past + At(n, front), n, last);
    }
  }

  // What a session has sent can be heard, if it fits a datagram.
  lemma SentIsOnTheWire(w: World, n: nat, who: nat, m: S.Message)
    requires n < |w| && who < |w[n].sessions| && m in w[n].sessions[who].sent && m.id == w[n].sessions[who].id
    requires L.Fits(m)
    ensures OnTheWire(w, S.Serialize(m))
  {
    var isDialer := w[n].sessions[who].isDialer;
    assert SentBy(w, n, who, isDialer, m);
    assert SomeSent(w, isDialer, m);
    assert S.Serialize(m) != "";
    L.ShortTextIsHeard(S.Serialize(m));
    assert S.Serialize(m) in L.Heard(S.Serialize(m));
  }

  // The values of the candidate lines of an SDP.
  function CandidateValues(sdp: string): seq<string> {
    var candidates := E.Candidates(sdp);
    seq(|candidates|, i requires 0 <= i < |candidates| => P.CandidateValue(candidates[i]))
  }

  lemma PrefixedValue(c: string)
    requires "candidate:" <= c
    ensures c == "candidate:" + P.CandidateValue(c)
  {
    assert c == c[..|"candidate:"|] + c[|"candidate:"|..];
  }

  lemma ValuesAre(sdp: string)
    ensures AreValues(CandidateValues(sdp), sdp)
  {
    CandidatesHavePrefix(sdp);
    forall i | 0 <= i < |E.Candidates(sdp)|
      ensures E.Candidates(sdp)[i] == "candidate:" + CandidateValues(sdp)[i]
    {
      PrefixedValue(E.Candidates(sdp)[i]);
    }
  }

  lemma WithoutAttribute(c: string)
    requires "a=candidate:" <= "a=" + c
    ensures "candidate:" <= c
  {
    assert "a=candidate:" == "a=" + "candidate:";
    assert c == ("a=" + c)[2..];
    assert forall i :: 0 <= i < |"candidate:"| ==> c[i] == ("a=" + c)[2 + i];
  }

  lemma CandidatesHavePrefix(sdp: string)
    ensures forall i :: 0 <= i < |E.Candidates(sdp)| ==> "candidate:" <= E.Candidates(sdp)[i]
  {
    E.CandidatesLineByLine(sdp);
    var lines := SplitLines(sdp);
    var at := Positions(lines, E.IsCandidate);
    forall i | 0 <= i < |E.Candidates(sdp)|
      ensures "candidate:" <= E.Candidates(sdp)[i]
    {
      assert at[i] in at;
      WithoutAttribute(E.Candidates(sdp)[i]);
    }
  }

  lemma AttributeThenValue(value: string)
    ensures "a=" + ("candidate:" + value) == "a=candidate:" + value
  {
  }

  // They are what the lines say, in order: the i-th candidate line, stripped, is "a=candidate:" and
  // the i-th value, and there is no other candidate line.
  lemma ValuesAreTheLines(sdp: string)
    ensures var lines, values := SplitLines(sdp), CandidateValues(sdp);
            var at := Positions(lines, E.IsCandidate);
            && |values| == |at| && Ascending(at)
            && (forall i :: 0 <= i < |at| ==> at[i] < |lines| && Strip(lines[at[i]]) == "a=candidate:" + values[i])
            && (forall k :: 0 <= k < |lines| ==> (k in at <==> "a=candidate:" <= Strip(lines[k])))
  {
    E.CandidatesLineByLine(sdp);
    var values := CandidateValues(sdp);
    ValuesAre(sdp);
    forall i | 0 <= i < |values|
      ensures "a=" + E.Candidates(sdp)[i] == "a=candidate:" + values[i]
    {
      AttributeThenValue(values[i]);
    }
  }

  // Each message of the description fits a datagram.
  predicate AllFit(description: S.Message, candidates: seq<string>) {
    L.Fits(description) && forall c :: c in candidates ==> L.Fits(S.CandidateAdd(description.id, c))
  }

  lemma CandidateIsOnTheWire(w: World, n: nat, who: nat, description: S.Message, candidates: seq<string>, i: nat)
    requires n < |w| && who < |w[n].sessions| && w[n].sessions[who].id == description.id && i < |candidates|
    requires HasSent(w[n].sessions[who], description, candidates) && AllFit(description, candidates)
    ensures OnTheWire(w, S.Serialize(S.CandidateAdd(description.id, candidates[i])))
  {
    assert candidates[i] in candidates;
    assert w[n].sessions[who].sent[0 + 1 + i] == S.CandidateAdd(description.id, candidates[i]);
    SentIsOnTheWire(w, n, who, S.CandidateAdd(description.id, candidates[i]));
  }

  lemma AllOnTheWire(w: World, id: nat, values: seq<string>)
    requires forall i :: 0 <= i < |values| ==> OnTheWire(w, CandidateText(id, values[i]))
    ensures Hearable(w, Texts(id, values))
  {
  }

  lemma SentCanBeHeard(w: World, n: nat, who: nat, description: S.Message, sdp: string)
    requires n < |w| && who < |w[n].sessions| && w[n].sessions[who].id == description.id
    requires HasSent(w[n].sessions[who], description, E.Candidates(sdp)) && AllFit(description, E.Candidates(sdp))
    ensures OnTheWire(w, S.Serialize(description)) && Hearable(w, Texts(description.id, CandidateValues(sdp)))
  {
    var values := CandidateValues(sdp);
    ValuesAre(sdp);
    assert w[n].sessions[who].sent[0] == description;
    SentIsOnTheWire(w, n, who, description);
    forall i | 0 <= i < |values|
      ensures OnTheWire(w, CandidateText(description.id, values[i]))
    {
      CandidateIsOnTheWire(w, n, who, description, E.Candidates(sdp), i);
    }
    AllOnTheWire(w, description.id, values);
  }

  // ---- the two of them ----

  lemma TwoMore(past: seq<WEvent>, n: nat, e: MEvent, e': MEvent)
    ensures past + At(n, [e, e']) == past + [WEvent(n, e)] + [WEvent(n, e')]
  {
    assert At(n, [e, e']) == [WEvent(n, e)] + [WEvent(n, e')];
  }

  lemma Dialing(nodes: nat, past: seq<WEvent>, a: nat, id: nat)
    requires a < nodes && id <= U64_MAX && FreshId(WRun(nodes, past), id) && |WRun(nodes, past)| == nodes
    ensures var w, w1 := WRun(nodes, past), WRun(nodes, past + [WEvent(a, Connect(id))]);
            && OnlyNode(w, w1, a) && WellFormed(w1[a]) && Seat(w1[a], |w[a].sessions|, Fresh(id, true))
            && w1[a].tasks == w[a].tasks + [Offering(|w[a].sessions|)]
  {
    var w := WRun(nodes, past);
    WorldsKeep(nodes, past);
    WRunThen(nodes, past, WEvent(a, Connect(id)));
    Connects(w[a], id);
    assert Enabled(w, a, Connect(id));
  }

  // The dialer asks.
  lemma Dials(nodes: nat, past: seq<WEvent>, a: nat, i: nat, d: nat, id: nat, offer: string)
    requires a < nodes && id <= U64_MAX && FreshId(WRun(nodes, past), id) && |WRun(nodes, past)| == nodes
    requires i == |WRun(nodes, past)[a].tasks| && d == |WRun(nodes, past)[a].sessions|
    ensures var w, w1 := WRun(nodes, past), WRun(nodes, past + At(a, [Connect(id), Resume(i, offer)]));
            && OnlyNode(w, w1, a) && WellFormed(w1[a]) && d < |w1[a].sessions| && |w1[a].tasks| == i + 1
            && Seat(w1[a], d, w1[a].sessions[d]) && Asking(w1[a].sessions[d]) && w1[a].sessions[d].id == id
            && HasSent(w1[a].sessions[d], S.ConnectRequest(id, E.WithoutCandidates(offer)), E.Candidates(offer))
  {
    Dialing(nodes, past, a, id);
    var dialed := past + [WEvent(a, Connect(id))];
    NodeSteps(nodes, dialed, a, Resume(i, offer));
    StartSends(WRun(nodes, dialed)[a], i, d, Fresh(id, true), offer);
    TwoMore(past, a, Connect(id), Resume(i, offer));
  }

  lemma HearableConcat(w: World, a: seq<MEvent>, b: seq<MEvent>)
    ensures Hearable(w, a + b) <==> Hearable(w, a) && Hearable(w, b)
  {
    assert forall e :: e in a + b <==> e in a || e in b;
  }

  lemma SomeTexts(id: nat, values: seq<string>, k: nat)
    requires k <= |values|
    ensures Texts(id, values) == Texts(id, values[..k]) + Texts(id, values[k..])
  {
  }

  lemma ListenerHears(w: World, id: nat, j: nat, offer: string, values: seq<string>, k: nat, answer: string)
    requires k <= |values|
    requires OnTheWire(w, S.Serialize(S.ConnectRequest(id, offer))) && Hearable(w, Texts(id, values))
    ensures Hearable(w, ListenerPart(id, j, offer, values, k, answer))
  {
    var first := [Receive(S.Serialize(S.ConnectRequest(id, offer)))];
    var early, late := Texts(id, values[..k]), Texts(id, values[k..]);
    SomeTexts(id, values, k);
    HearableConcat(w, early, late);
    HearableConcat(w, first, early);
    HearableConcat(w, first + early, Resumes(j, k + 1));
    HearableConcat(w, first + early + Resumes(j, k + 1), [Resume(j, answer)]);
    HearableConcat(w, first + early + Resumes(j, k + 1) + [Resume(j, answer)], late);
  }

  // The listener answers.
  lemma Answers(nodes: nat, past: seq<WEvent>, b: nat, j: nat, l: nat, id: nat, offer: string, k: nat, answer: string)
    requires b < nodes && id <= U64_MAX && |WRun(nodes, past)| == nodes && k <= |CandidateValues(offer)|
    requires j == |WRun(nodes, past)[b].tasks| && l == |WRun(nodes, past)[b].sessions|
    requires id !in WRun(nodes, past)[b].routes && id !in WRun(nodes, past)[b].parked
    requires OnTheWire(WRun(nodes, past), S.Serialize(S.ConnectRequest(id, E.WithoutCandidates(offer))))
    requires Hearable(WRun(nodes, past), Texts(id, CandidateValues(offer)))
    ensures var part := ListenerPart(id, j, E.WithoutCandidates(offer), CandidateValues(offer), k, answer);
            var w, w1 := WRun(nodes, past), WRun(nodes, past + At(b, part));
            && OnlyNode(w, w1, b) && WellFormed(w1[b]) && l < |w1[b].sessions| && Seat(w1[b], l, w1[b].sessions[l])
            && ListenerDone(w1[b].sessions[l], id, E.WithoutCandidates(offer), CandidateValues(offer), answer)
  {
    var w := WRun(nodes, past);
    var values, rest := CandidateValues(offer), E.WithoutCandidates(offer);
    WorldsKeep(nodes, past);
    ListenerHears(w, id, j, rest, values, k, answer);
    NodeRuns(nodes, past, b, ListenerPart(id, j, rest, values, k, answer));
    var m1 := ListenerAnswers(w[b], id, rest, values, k, answer);
  }

  // A dialer that has applied the answer and heard its candidates.
  function Answered(s: Session, answer: string): Session {
    var values := CandidateValues(answer);
    s.(phase := NEGOTIATING, timer := Some(15), ice := P.Ice([E.WithoutCandidates(answer)], true, [], values, values))
  }

  function AnswerPart(id: nat, i: nat, answer: string): seq<MEvent> {
    DialerPart(id, i, E.WithoutCandidates(answer), CandidateValues(answer))
  }

  lemma DialerHears(w: World, id: nat, i: nat, answer: string)
    requires OnTheWire(w, S.Serialize(S.ConnectResponse(id, E.WithoutCandidates(answer))))
    requires Hearable(w, Texts(id, CandidateValues(answer)))
    ensures Hearable(w, AnswerPart(id, i, answer))
  {
  }

  // The dialer applies the answer.
  lemma Accepts(nodes: nat, past: seq<WEvent>, a: nat, i: nat, d: nat, id: nat, s: Session, answer: string)
    requires a < nodes && |WRun(nodes, past)| == nodes && i == |WRun(nodes, past)[a].tasks|
    requires Seat(WRun(nodes, past)[a], d, s) && Asking(s) && s.id == id && id <= U64_MAX
    requires OnTheWire(WRun(nodes, past), S.Serialize(S.ConnectResponse(id, E.WithoutCandidates(answer))))
    requires Hearable(WRun(nodes, past), Texts(id, CandidateValues(answer)))
    ensures var w, w1 := WRun(nodes, past), WRun(nodes, past + At(a, AnswerPart(id, i, answer)));
            OnlyNode(w, w1, a) && Seat(w1[a], d, Answered(s, answer))
  {
    var w := WRun(nodes, past);
    DialerHears(w, id, i, answer);
    NodeRuns(nodes, past, a, AnswerPart(id, i, answer));
    var m1 := DialerApplies(w[a], d, s, E.WithoutCandidates(answer), CandidateValues(answer));
  }

  lemma ChannelsOpened(nodes: nat, past: seq<WEvent>, n: nat, who: nat, s: Session)
    requires n < nodes && |WRun(nodes, past)| == nodes
    requires Seat(WRun(nodes, past)[n], who, s) && s.phase != CONNECTED && s.phase != CLOSED
    ensures var w := WRun(nodes, past);
            var w1 := WRun(nodes, past + Opening(n, who));
            && OnlyNode(w, w1, n)
            && Seat(w1[n], who, s.(phase := CONNECTED, timer := None, log := s.log + [Opened]))
  {
    NodeSteps(nodes, past, n, External(who, ChannelsOpen));
    Opens(WRun(nodes, past)[n], who, s);
  }

  // Who calls whom, under which id, and which coroutine and session this will make at each: the
  // i-th and d-th of the dialer's peer a, the j-th and l-th of the listener's peer b.
  datatype Call = Call(id: nat, a: nat, i: nat, d: nat, b: nat, j: nat, l: nat)

  predicate Begins(c: Call, w: World) {
    && c.a < |w| && c.b < |w| && c.a != c.b && c.id <= U64_MAX && FreshId(w, c.id)
    && c.i == |w[c.a].tasks| && c.d == |w[c.a].sessions| && c.j == |w[c.b].tasks| && c.l == |w[c.b].sessions|
  }

  // The stretches of a negotiation: the dialer asks; the listener hears the request and k of the
  // candidates, applies the offer, answers, and hears the other candidates; the dialer hears and
  // applies the answer and hears its candidates, and the channels open on both sides.
  function Asks(c: Call, offer: string): seq<WEvent> { At(c.a, [Connect(c.id), Resume(c.i, offer)]) }

  function Replies(c: Call, offer: string, k: nat, answer: string): seq<WEvent>
    requires k <= |CandidateValues(offer)|
  {
    At(c.b, ListenerPart(c.id, c.j, E.WithoutCandidates(offer), CandidateValues(offer), k, answer))
  }

  function Opening(n: nat, who: nat): seq<WEvent> { [WEvent(n, External(who, ChannelsOpen))] }

  // A connected session that applied this description and these candidates, once each and in order.
  predicate Finished(s: Session, id: nat, isDialer: bool, description: string, candidates: seq<string>) {
    && s.id == id && s.isDialer == isDialer && s.phase == CONNECTED && s.timer == None && s.log == [Opened]
    && s.ice.remotes == [description] && s.ice.pending == [] && s.ice.applied == candidates
  }

  // The dialer has asked and the listener has answered.
  predicate Halfway(w: World, c: Call, s: Session, t: Session, offer: string, answer: string) {
    && c.a < |w| && c.b < |w| && |w[c.a].tasks| == c.i + 1 && s.id == c.id
    && Seat(w[c.a], c.d, s) && Asking(s)
    && Seat(w[c.b], c.l, t) && ListenerDone(t, c.id, E.WithoutCandidates(offer), CandidateValues(offer), answer)
  }

  lemma AskAndReply(nodes: nat, past: seq<WEvent>, c: Call, offer: string, k: nat, answer: string)
    returns (s: Session, t: Session)
    requires |WRun(nodes, past)| == nodes && Begins(c, WRun(nodes, past)) && k <= |CandidateValues(offer)|
    requires AllFit(S.ConnectRequest(c.id, E.WithoutCandidates(offer)), E.Candidates(offer))
    ensures var w2 := WRun(nodes, past + Asks(c, offer) + Replies(c, offer, k, answer));
            |w2| == nodes && Halfway(w2, c, s, t, offer, answer)
  {
    Dials(nodes, past, c.a, c.i, c.d, c.id, offer);
    var asked := past + Asks(c, offer);
    var w1 := WRun(nodes, asked);
    FreshIsUnknown(nodes, past, c.id, c.b);
    SentCanBeHeard(w1, c.a, c.d, S.ConnectRequest(c.id, E.WithoutCandidates(offer)), offer);
    Answers(nodes, asked, c.b, c.j, c.l, c.id, offer, k, answer);
    var w2 := WRun(nodes, asked + Replies(c, offer, k, answer));
    s, t := w2[c.a].sessions[c.d], w2[c.b].sessions[c.l];
  }

  lemma DialerFinishes(s: Session, answer: string)
    requires Asking(s)
    ensures var s1 := Answered(s, answer);
            Finished(s1.(phase := CONNECTED, timer := None, log := s1.log + [Opened]), s.id, true,
                     E.WithoutCandidates(answer), CandidateValues(answer))
  {
  }

  lemma ListenerFinishes(t: Session, id: nat, offer: string, values: seq<string>, answer: string)
    requires ListenerDone(t, id, offer, values, answer)
    ensures Finished(t.(phase := CONNECTED, timer := None, log := t.log + [Opened]), id, false, offer, values)
  {
  }

  predicate BothFinished(w: World, c: Call, offer: string, answer: string) {
    && c.a < |w| && c.b < |w| && c.d < |w[c.a].sessions| && c.l < |w[c.b].sessions|
    && Finished(w[c.a].sessions[c.d], c.id, true, E.WithoutCandidates(answer), CandidateValues(answer))
    && Finished(w[c.b].sessions[c.l], c.id, false, E.WithoutCandidates(offer), CandidateValues(offer))
  }

  // The dialer concludes.
  lemma DialerConcludes(nodes: nat, past: seq<WEvent>, c: Call, s: Session, t: Session, offer: string, answer: string)
    requires c.a < nodes && c.b < nodes && c.a != c.b && c.id <= U64_MAX && |WRun(nodes, past)| == nodes
    requires Halfway(WRun(nodes, past), c, s, t, offer, answer)
    requires AllFit(S.ConnectResponse(c.id, E.WithoutCandidates(answer)), E.Candidates(answer))
    ensures var w1 := WRun(nodes, past + At(c.a, AnswerPart(c.id, c.i + 1, answer)) + Opening(c.a, c.d));
            && |w1| == nodes && c.d < |w1[c.a].sessions| && Seat(w1[c.b], c.l, t)
            && Finished(w1[c.a].sessions[c.d], c.id, true, E.WithoutCandidates(answer), CandidateValues(answer))
  {
    SentCanBeHeard(WRun(nodes, past), c.b, c.l, S.ConnectResponse(c.id, E.WithoutCandidates(answer)), answer);
    Accepts(nodes, past, c.a, c.i + 1, c.d, c.id, s, answer);
    ChannelsOpened(nodes, past + At(c.a, AnswerPart(c.id, c.i + 1, answer)), c.a, c.d, Answered(s, answer));
    DialerFinishes(s, answer);
  }

  // And so does the listener.
  lemma ListenerConcludes(nodes: nat, past: seq<WEvent>, c: Call, t: Session, offer: string, answer: string)
    requires c.a < nodes && c.b < nodes && c.a != c.b && |WRun(nodes, past)| == nodes && Seat(WRun(nodes, past)[c.b], c.l, t)
    requires ListenerDone(t, c.id, E.WithoutCandidates(offer), CandidateValues(offer), answer)
    requires c.d < |WRun(nodes, past)[c.a].sessions|
    requires Finished(WRun(nodes, past)[c.a].sessions[c.d], c.id, true, E.WithoutCandidates(answer), CandidateValues(answer))
    ensures BothFinished(WRun(nodes, past + Opening(c.b, c.l)), c, offer, answer)
  {
    ChannelsOpened(nodes, past, c.b, c.l, t);
    ListenerFinishes(t, c.id, E.WithoutCandidates(offer), CandidateValues(offer), answer);
  }

  // Progress: from every reachable world, for any two peers and any fresh id, if all texts fit a
  // datagram, what the dialer sends makes the listener answer, what it answers connects the dialer,
  // and each has applied the other's description and candidates, once each and in the order of
  // the lines of the SDP they came from.
  lemma HandshakeCompletes(nodes: nat, past: seq<WEvent>, c: Call, offer: string, k: nat, answer: string)
    requires |WRun(nodes, past)| == nodes && Begins(c, WRun(nodes, past)) && k <= |CandidateValues(offer)|
    requires AllFit(S.ConnectRequest(c.id, E.WithoutCandidates(offer)), E.Candidates(offer))
    requires AllFit(S.ConnectResponse(c.id, E.WithoutCandidates(answer)), E.Candidates(answer))
    ensures BothFinished(WRun(nodes, past + Asks(c, offer) + Replies(c, offer, k, answer)
                                     + At(c.a, AnswerPart(c.id, c.i + 1, answer)) + Opening(c.a, c.d) + Opening(c.b, c.l)), c, offer, answer)
  {
    var s, t := AskAndReply(nodes, past, c, offer, k, answer);
    var replied := past + Asks(c, offer) + Replies(c, offer, k, answer);
    DialerConcludes(nodes, replied, c, s, t, offer, answer);
    ListenerConcludes(nodes, replied + At(c.a, AnswerPart(c.id, c.i + 1, answer)) + Opening(c.a, c.d), c, t, offer, answer);
  }
}
