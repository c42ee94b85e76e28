// Candidate conservation: what reaches the ICE library is what arrived, under every
// interleaving of the flush loops with arriving candidates, unless two flushes overlap.
module Conservation {
  import opened Basics
  import P = PeerConnections
  import S = Signaling
  import opened Sessions
  import opened Managers
  import opened Routing

  predicate FlushOf(t: Task, who: nat) { t.Flushing? && t.who == who }

  predicate FlushActive(tasks: seq<Task>, who: nat) {
    exists i :: 0 <= i < |tasks| && FlushOf(tasks[i], who)
  }

  // The furthest index a flush loop of the session has reached; 0 when none is running.
  function Reach(tasks: seq<Task>, who: nat): nat {
    if tasks == [] then 0
    else
      var before := Reach(tasks[..|tasks| - 1], who);
      var t := tasks[|tasks| - 1];
      if FlushOf(t, who) && t.next > before then t.next else before
  }

  lemma {:induction false} ReachSpec(tasks: seq<Task>, who: nat)
    ensures forall i :: 0 <= i < |tasks| && FlushOf(tasks[i], who) ==> tasks[i].next <= Reach(tasks, who)
    ensures Reach(tasks, who) > 0 ==>
              exists i :: 0 <= i < |tasks| && FlushOf(tasks[i], who) && tasks[i].next == Reach(tasks, who)
  {
    if tasks != [] {
      var front := tasks[..|tasks| - 1];
      ReachSpec(front, who);
      if Reach(tasks, who) == Reach(front, who) > 0 {
        var i :| 0 <= i < |front| && FlushOf(front[i], who) && front[i].next == Reach(front, who);
        assert tasks[i] == front[i];
      }
    }
  }

  // What a session's flush loops and buffer look like between steps.
  ghost predicate FlushOk(ice: P.Ice, tasks: seq<Task>, who: nat) {
    && (!ice.remoteSet ==>
          ice.remotes == [] && ice.applied == [] && ice.pending == ice.arrived && !FlushActive(tasks, who))
    && (ice.remoteSet ==> ice.remotes != [] && (ice.pending != [] ==> FlushActive(tasks, who)))
    && (forall i :: 0 <= i < |tasks| && FlushOf(tasks[i], who) ==>
          1 <= tasks[i].next && (ice.pending != [] ==> tasks[i].next <= |ice.pending|))
  }

  // Candidates still to be applied by the flush loop that is furthest.
  function Unapplied(ice: P.Ice, tasks: seq<Task>, who: nat): int {
    if ice.pending == [] then 0 else |ice.pending| - Reach(tasks, who)
  }

  // How many candidates too many have been, or are bound to be, applied.
  function Excess(ice: P.Ice, tasks: seq<Task>, who: nat): int {
    |ice.applied| + Unapplied(ice, tasks, who) - |ice.arrived|
  }

  predicate OneFlush(tasks: seq<Task>, who: nat) {
    forall i, j :: 0 <= i < |tasks| && 0 <= j < |tasks| && FlushOf(tasks[i], who) && FlushOf(tasks[j], who) ==> i == j
  }

  // No candidate lost or doubled so far, and at most one flush loop running.
  ghost predicate Clean(ice: P.Ice, tasks: seq<Task>, who: nat) {
    && OneFlush(tasks, who)
    && (FlushActive(tasks, who) ==> ice.pending != [])
    && Reach(tasks, who) <= |ice.pending|
    && multiset(ice.applied) + multiset(ice.pending[Reach(tasks, who)..]) == multiset(ice.arrived)
  }

  lemma CleanHasNoExcess(ice: P.Ice, tasks: seq<Task>, who: nat)
    requires Clean(ice, tasks, who)
    ensures Excess(ice, tasks, who) == 0
  {
    var rest := ice.pending[Reach(tasks, who)..];
    assert |multiset(ice.applied) + multiset(rest)| == |ice.applied| + |rest|;
    assert |multiset(ice.arrived)| == |ice.arrived|;
  }

  lemma NoFlushNoReach(tasks: seq<Task>, who: nat)
    requires !FlushActive(tasks, who)
    ensures Reach(tasks, who) == 0
  {
    ReachSpec(tasks, who);
  }

  // ---- the four kinds of step, seen by one session ----

  // The same flush loops of the session, at the same points.
  predicate SameFlushes(before: seq<Task>, after: seq<Task>, who: nat) {
    && |before| <= |after|
    && (forall i :: 0 <= i < |before| && (FlushOf(before[i], who) || FlushOf(after[i], who)) ==> before[i] == after[i])
    && (forall i :: |before| <= i < |after| ==> !FlushOf(after[i], who))
  }

  lemma SameReach(before: seq<Task>, after: seq<Task>, who: nat)
    requires SameFlushes(before, after, who)
    ensures Reach(before, who) == Reach(after, who)
    ensures FlushActive(before, who) == FlushActive(after, who)
    ensures OneFlush(before, who) ==> OneFlush(after, who)
  {
    ReachSpec(before, who);
    ReachSpec(after, who);
    if FlushActive(before, who) {
      var i :| 0 <= i < |before| && FlushOf(before[i], who);
      assert FlushOf(after[i], who);
    }
  }

  lemma UnrelatedStep(ice: P.Ice, before: seq<Task>, after: seq<Task>, who: nat)
    requires FlushOk(ice, before, who) && SameFlushes(before, after, who)
    ensures FlushOk(ice, after, who) && Excess(ice, after, who) == Excess(ice, before, who)
    ensures Clean(ice, before, who) ==> Clean(ice, after, who)
  {
    SameReach(before, after, who);
  }

  lemma ArrivalStep(ice: P.Ice, tasks: seq<Task>, who: nat, text: string)
    requires FlushOk(ice, tasks, who)
    ensures var ice1 := P.AddCandidate(ice, text);
            && FlushOk(ice1, tasks, who) && Excess(ice1, tasks, who) == Excess(ice, tasks, who)
            && (Clean(ice, tasks, who) ==> Clean(ice1, tasks, who))
  {
    var ice1 := P.AddCandidate(ice, text);
    var n := Reach(tasks, who);
    if !ice.remoteSet {
      NoFlushNoReach(tasks, who);
      assert ice1.pending[0..] == ice1.pending && ice.pending[0..] == ice.pending;
    }
  }

  lemma DescribeStep(ice: P.Ice, tasks: seq<Task>, i: nat, t: Task, who: nat, sdp: string)
    requires FlushOk(ice, tasks, who) && i < |tasks| && !FlushOf(tasks[i], who)
    requires if ice.pending != [] then FlushOf(t, who) && t.next == 1 else !FlushOf(t, who)
    ensures var ice1, after := P.Describe(ice, sdp), tasks[i := t];
            && FlushOk(ice1, after, who) && Excess(ice1, after, who) >= Excess(ice, tasks, who)
            && (Clean(ice, tasks, who) && !FlushActive(tasks, who) ==> Clean(ice1, after, who))
            && (Clean(ice, tasks, who) && FlushActive(tasks, who) ==> Excess(ice1, after, who) > 0)
  {
    var ice1, after := P.Describe(ice, sdp), tasks[i := t];
    ReachSpec(tasks, who);
    ReachSpec(after, who);
    if ice.pending == [] {
      SameReach(tasks, after, who);
    } else {
      assert FlushOf(after[i], who);
      DescribeReach(tasks, i, t, who);
      if !FlushActive(tasks, who) {
        assert ice.pending == [ice.pending[0]] + ice.pending[1..] && ice.pending[0..] == ice.pending;
      } else if Clean(ice, tasks, who) {
        CleanHasNoExcess(ice, tasks, who);
      }
    }
  }

  lemma DescribeReach(tasks: seq<Task>, i: nat, t: Task, who: nat)
    requires i < |tasks| && !FlushOf(tasks[i], who) && FlushOf(t, who) && t.next == 1
    requires forall j :: 0 <= j < |tasks| && FlushOf(tasks[j], who) ==> 1 <= tasks[j].next
    ensures Reach(tasks[i := t], who) == if FlushActive(tasks, who) then Reach(tasks, who) else 1
  {
    var after := tasks[i := t];
    ReachSpec(tasks, who);
    ReachSpec(after, who);
    assert after[i] == t;
    if FlushActive(tasks, who) {
      var j :| 0 <= j < |tasks| && FlushOf(tasks[j], who) && tasks[j].next == Reach(tasks, who);
      assert after[j] == tasks[j];
    }
  }

  lemma FlushStep(ice: P.Ice, tasks: seq<Task>, i: nat, t: Task, who: nat)
    requires FlushOk(ice, tasks, who) && ice.remoteSet && i < |tasks| && FlushOf(tasks[i], who)
    requires if tasks[i].next < |ice.pending| then FlushOf(t, who) && t.next == tasks[i].next + 1 else !FlushOf(t, who)
    ensures var ice1, after := P.FlushAt(ice, tasks[i].next), tasks[i := t];
            && FlushOk(ice1, after, who) && Excess(ice1, after, who) >= Excess(ice, tasks, who)
            && (Clean(ice, tasks, who) ==> Clean(ice1, after, who))
  {
    var k := tasks[i].next;
    var ice1, after := P.FlushAt(ice, k), tasks[i := t];
    ReachSpec(tasks, who);
    ReachSpec(after, who);
    assert after[i] == t;
    if k < |ice.pending| {
      assert FlushActive(after, who);
      AdvanceReach(tasks, i, t, who);
      if Clean(ice, tasks, who) {
        SingleReach(tasks, i, who);
        assert ice.pending[k..] == [ice.pending[k]] + ice.pending[k + 1..];
      }
    } else if Clean(ice, tasks, who) {
      SingleReach(tasks, i, who);
      assert ice.pending[k..] == [] && ice1.pending == [];
      assert !FlushActive(after, who);
      NoFlushNoReach(after, who);
    }
  }

  lemma AdvanceReach(tasks: seq<Task>, i: nat, t: Task, who: nat)
    requires i < |tasks| && FlushOf(tasks[i], who) && FlushOf(t, who) && t.next == tasks[i].next + 1
    ensures Reach(tasks, who) <= Reach(tasks[i := t], who) <= Reach(tasks, who) + 1
    ensures OneFlush(tasks, who) ==> Reach(tasks[i := t], who) == t.next
  {
    var after := tasks[i := t];
    ReachSpec(tasks, who);
    ReachSpec(after, who);
    assert after[i] == t;
    assert forall j :: 0 <= j < |tasks| && j != i ==> after[j] == tasks[j];
  }

  lemma SingleReach(tasks: seq<Task>, i: nat, who: nat)
    requires i < |tasks| && FlushOf(tasks[i], who) && OneFlush(tasks, who)
    ensures tasks[i].next > 0 ==> Reach(tasks, who) == tasks[i].next
  {
    ReachSpec(tasks, who);
  }

  // ---- manager steps ----

  lemma StepIce(s: Session, e: Event)
    ensures Step(s, e).ice ==
            match e
            case Described(sdp) => P.Describe(s.ice, sdp)
            case Flush(k) => P.FlushAt(s.ice, k)
            case CandidateArrived(text) => if s.phase == CLOSED then s.ice else P.AddCandidate(s.ice, text)
            case AnswerReady(_, _, Some(text)) => P.AddCandidate(s.ice, text)
            case _ => s.ice
  {
  }

  ghost predicate SessionFlushOk(m: Manager, who: nat)
    requires who < |m.sessions|
  {
    FlushOk(m.sessions[who].ice, m.tasks, who)
  }

  // What one step does to the books of one session.
  ghost predicate Accounted(m: Manager, m1: Manager, who: nat, overlaps: bool)
    requires who < |m.sessions| && who < |m1.sessions|
  {
    var ice, ice1 := m.sessions[who].ice, m1.sessions[who].ice;
    && SessionFlushOk(m1, who)
    && Excess(ice1, m1.tasks, who) >= Excess(ice, m.tasks, who)
    && (Clean(ice, m.tasks, who) && !overlaps ==> Clean(ice1, m1.tasks, who))
    && (Clean(ice, m.tasks, who) && overlaps ==> Excess(ice1, m1.tasks, who) > 0)
  }

  // A remote description is applied for a session whose buffer another loop is flushing.
  predicate Overlaps(m: Manager, e: MEvent, who: nat) {
    && e.Resume? && e.task < |m.tasks|
    && (m.tasks[e.task].ApplyingOffer? || m.tasks[e.task].ApplyingAnswer?)
    && m.tasks[e.task].who == who
    && FlushActive(m.tasks, who)
  }

  lemma ResumeShape(m: Manager, i: nat, sdp: string)
    requires WellFormed(m) && i < |m.tasks| && !m.tasks[i].Done?
    ensures var t := m.tasks[i]; var s := m.sessions[t.who]; var m1 := ResumeTask(m, i, sdp);
            && m1.tasks == m.tasks[i := NextTask(t, s, Parked(m, s.id))]
            && m1.sessions == match EventOf(t, sdp, Parked(m, s.id))
                              case None => m.sessions
                              case Some(e) => m.sessions[t.who := Step(s, e)]
    ensures var t := m.tasks[i]; var s := m.sessions[t.who];
            ResumeTask(m, i, sdp).parked == if t.Answering? && t.first then m.parked - {s.id} else m.parked
  {
  }

  lemma ResumeAccounted(m: Manager, i: nat, sdp: string)
    requires WellFormed(m) && i < |m.tasks| && !m.tasks[i].Done?
    requires SessionFlushOk(m, m.tasks[i].who)
    ensures var who := m.tasks[i].who;
            |ResumeTask(m, i, sdp).sessions| == |m.sessions|
            && Accounted(m, ResumeTask(m, i, sdp), who, Overlaps(m, Resume(i, sdp), who))
  {
    var t := m.tasks[i];
    var who, s := t.who, m.sessions[t.who];
    var parked := Parked(m, s.id);
    var next := NextTask(t, s, parked);
    ResumeShape(m, i, sdp);
    if EventOf(t, sdp, parked).Some? {
      StepIce(s, EventOf(t, sdp, parked).value);
    }
    match t {
      case ApplyingAnswer(_, answer) => DescribeStep(s.ice, m.tasks, i, next, who, answer);
      case ApplyingOffer(_, offer, _) => DescribeStep(s.ice, m.tasks, i, next, who, offer);
      case Flushing(_, _, _, _) => FlushStep(s.ice, m.tasks, i, next, who);
      case Replaying(_, rest) =>
        UnrelatedStep(s.ice, m.tasks, m.tasks[i := next], who);
        if rest != [] {
          ArrivalStep(s.ice, m.tasks[i := next], who, rest[0]);
        }
      case Offering(_) => UnrelatedStep(s.ice, m.tasks, m.tasks[i := next], who);
      case Answering(_, first) =>
        UnrelatedStep(s.ice, m.tasks, m.tasks[i := next], who);
        if first && parked != [] {
          ArrivalStep(s.ice, m.tasks[i := next], who, parked[0]);
        }
      case Done =>
    }
  }

  // A coroutine goes on for its own session, or ends.
  lemma NextTaskSession(t: Task, s: Session, parked: seq<string>)
    requires !t.Done?
    ensures var next := NextTask(t, s, parked); next.Done? || next.who == t.who
  {
  }

  lemma SpawnedKind(m: Manager, e: MEvent)
    requires WellFormed(m)
    ensures |Spawned(m, e)| <= 1
    ensures forall t :: t in Spawned(m, e) ==> t.Offering? || t.ApplyingAnswer? || t.ApplyingOffer?
  {
  }

  lemma FlushesAfter(tasks: seq<Task>, i: nat, next: Task, more: seq<Task>, who: nat)
    requires forall t :: t in more ==> !FlushOf(t, who)
    ensures SameFlushes(tasks, tasks + more, who)
    ensures i < |tasks| && !FlushOf(tasks[i], who) && !FlushOf(next, who) ==> SameFlushes(tasks, tasks[i := next], who)
  {
  }

  lemma OtherTasks(m: Manager, e: MEvent, who: nat)
    requires WellFormed(m) && who < |m.sessions|
    requires Routing.Resumes(m, e) ==> m.tasks[e.task].who != who
    ensures SameFlushes(m.tasks, MStep(m, e).tasks, who)
  {
    StepTasks(m, e);
    SpawnedKind(m, e);
    if Routing.Resumes(m, e) {
      var t := m.tasks[e.task];
      var s := m.sessions[t.who];
      NextTaskSession(t, s, Parked(m, s.id));
      FlushesAfter(m.tasks, e.task, NextTask(t, s, Parked(m, s.id)), [], who);
    } else {
      FlushesAfter(m.tasks, 0, Done, Spawned(m, e), who);
    }
  }

  // Steps that are not a resumption of one of the session's own coroutines.
  lemma OtherAccounted(m: Manager, e: MEvent, who: nat)
    requires WellFormed(m) && who < |m.sessions| && SessionFlushOk(m, who)
    requires e.Resume? && e.task < |m.tasks| && !m.tasks[e.task].Done? ==> m.tasks[e.task].who != who
    ensures |MStep(m, e).sessions| >= |m.sessions| && Accounted(m, MStep(m, e), who, false)
  {
    var m1 := MStep(m, e);
    var ice := m.sessions[who].ice;
    StepTouchesOneSession(m, e);
    OtherTasks(m, e, who);
    UnrelatedStep(ice, m.tasks, m1.tasks, who);
    var effect := EffectOf(m, e);
    if effect.Touches? && effect.who == who {
      StepIce(m.sessions[who], effect.e);
      if effect.e.CandidateArrived? {
        ArrivalStep(ice, m1.tasks, who, effect.e.text);
      }
    }
  }

  lemma StepAccounted(m: Manager, e: MEvent, who: nat)
    requires WellFormed(m) && who < |m.sessions| && SessionFlushOk(m, who)
    ensures |MStep(m, e).sessions| >= |m.sessions| && Accounted(m, MStep(m, e), who, Overlaps(m, e, who))
  {
    if e.Resume? && e.task < |m.tasks| && !m.tasks[e.task].Done? && m.tasks[e.task].who == who {
      ResumeAccounted(m, e.task, e.sdp);
    } else {
      OtherAccounted(m, e, who);
    }
  }

  // A session starts with clean books.
  lemma CreatedClean(m: Manager, e: MEvent, who: nat)
    requires WellFormed(m) && |m.sessions| <= who < |MStep(m, e).sessions|
    ensures var m1 := MStep(m, e); SessionFlushOk(m1, who) && Clean(m1.sessions[who].ice, m1.tasks, who)
  {
    var m1 := MStep(m, e);
    StepTouchesOneSession(m, e);
    assert m1.sessions[who].ice == P.NEW_ICE;
    assert !FlushActive(m1.tasks, who);
    NoFlushNoReach(m1.tasks, who);
  }

  // No remote description of the session is applied while its buffer is being flushed.
  predicate NoOverlap(events: seq<MEvent>, who: nat) {
    events != [] ==>
      && NoOverlap(events[..|events| - 1], who)
      && !Overlaps(MRun(NEW_MANAGER, events[..|events| - 1]), events[|events| - 1], who)
  }

  lemma {:induction false} BooksKeep(events: seq<MEvent>, who: nat)
    requires who < |MRun(NEW_MANAGER, events).sessions|
    ensures var m := MRun(NEW_MANAGER, events); var ice := m.sessions[who].ice;
            && SessionFlushOk(m, who)
            && (NoOverlap(events, who) ==> Clean(ice, m.tasks, who))
            && (!NoOverlap(events, who) ==> Excess(ice, m.tasks, who) > 0)
  {
    var front, e := events[..|events| - 1], events[|events| - 1];
    var m := MRun(NEW_MANAGER, front);
    if who < |m.sessions| {
      BooksKeep(front, who);
      StepAccounted(m, e, who);
    } else {
      CreatedClean(m, e, who);
      NoEarlyOverlap(front, who);
    }
  }

  lemma {:induction false} NoEarlyOverlap(events: seq<MEvent>, who: nat)
    requires who >= |MRun(NEW_MANAGER, events).sessions|
    ensures NoOverlap(events, who)
  {
    if events != [] {
      StepTouchesOneSession(MRun(NEW_MANAGER, events[..|events| - 1]), events[|events| - 1]);
      NoEarlyOverlap(events[..|events| - 1], who);
    }
  }

  // In every run, no candidate is given to the ICE library before a remote description is.
  lemma NoCandidateBeforeDescription(events: seq<MEvent>, who: nat)
    requires who < |MRun(NEW_MANAGER, events).sessions|
    ensures var ice := MRun(NEW_MANAGER, events).sessions[who].ice; ice.remotes == [] ==> ice.applied == []
  {
    BooksKeep(events, who);
  }

  // Conservation: once no flush is running, the candidates applied are exactly those that
  // arrived, none lost and none doubled, if and only if no two flushes of the session overlapped.
  lemma ConservationIff(events: seq<MEvent>, who: nat)
    requires who < |MRun(NEW_MANAGER, events).sessions|
    requires var m := MRun(NEW_MANAGER, events); m.sessions[who].ice.remotes != [] && !FlushActive(m.tasks, who)
    ensures var ice := MRun(NEW_MANAGER, events).sessions[who].ice;
            multiset(ice.applied) == multiset(ice.arrived) <==> NoOverlap(events, who)
  {
    var m := MRun(NEW_MANAGER, events);
    var ice := m.sessions[who].ice;
    BooksKeep(events, who);
    NoFlushNoReach(m.tasks, who);
    assert ice.pending == [];
    if multiset(ice.applied) == multiset(ice.arrived) {
      assert |ice.applied| == |multiset(ice.applied)| == |ice.arrived|;
    }
  }
}
