// From send() on one peer to recv() on the other: every packet the link hands to on_packet,
// reliable or not, becomes a packet event of the endpoint, between any other events.
module EndToEnd {
  import opened Basics
  import P = PeerConnections
  import opened Endpoints

  // An event of the session's link, or one of the endpoint that is none of this session's packets.
  datatype PipeEvent = OnLink(l: P.LinkEvent) | OnEndpoint(e: Event)

  function LinkEvents(pipe: seq<PipeEvent>): seq<P.LinkEvent> {
    if pipe == [] then []
    else
      var last := pipe[|pipe| - 1];
      LinkEvents(pipe[..|pipe| - 1]) + if last.OnLink? then [last.l] else []
  }

  function Payloads(emitted: seq<P.Emission>): seq<bytes> {
    seq(|emitted|, i requires 0 <= i < |emitted| => emitted[i].packet)
  }

  function PacketIns(packets: seq<bytes>, id: nat): seq<Event> {
    seq(|packets|, i requires 0 <= i < |packets| => PacketIn(id, packets[i]))
  }

  // What a link emits from one point of its run to a later one.
  function Emitted(before: seq<P.LinkEvent>, more: seq<P.LinkEvent>): (packets: seq<bytes>)
    ensures |packets| == |P.LinkRun(before + more).emitted| - |P.LinkRun(before).emitted|
  {
    EmittedGrows(before, more);
    Payloads(P.LinkRun(before + more).emitted[|P.LinkRun(before).emitted|..])
  }

  // The events the endpoint sees, the link having run before.
  function EventsOf(before: seq<P.LinkEvent>, pipe: seq<PipeEvent>, id: nat): seq<Event> {
    if pipe == [] then []
    else
      var front, last := pipe[..|pipe| - 1], pipe[|pipe| - 1];
      EventsOf(before, front, id) +
      match last
      case OnEndpoint(e) => [e]
      case OnLink(l) => PacketIns(Emitted(before + LinkEvents(front), [l]), id)
  }

  lemma LinkNext(events: seq<P.LinkEvent>, e: P.LinkEvent)
    ensures P.LinkRun(events + [e]) == P.LinkStep(P.LinkRun(events), e)
  {
    assert (events + [e])[..|events|] == events;
  }

  lemma StepEmits(l: P.Link, e: P.LinkEvent)
    ensures l.emitted <= P.LinkStep(l, e).emitted
  {
  }

  lemma {:induction false} EmittedGrows(before: seq<P.LinkEvent>, more: seq<P.LinkEvent>)
    ensures P.LinkRun(before).emitted <= P.LinkRun(before + more).emitted
  {
    if more == [] {
      assert before + more == before;
    } else {
      var front, e := more[..|more| - 1], more[|more| - 1];
      EmittedGrows(before, front);
      LinkNext(before + front, e);
      assert before + more == before + front + [e];
      StepEmits(P.LinkRun(before + front), e);
    }
  }

  lemma EmittedNext(before: seq<P.LinkEvent>, more: seq<P.LinkEvent>, e: P.LinkEvent)
    ensures Emitted(before, more + [e]) == Emitted(before, more) + Emitted(before + more, [e])
  {
    assert before + (more + [e]) == before + more + [e];
    EmittedGrows(before, more);
    EmittedGrows(before + more, [e]);
  }

  lemma EmittedNone(before: seq<P.LinkEvent>)
    ensures Emitted(before, []) == []
  {
    assert before + [] == before;
  }

  lemma {:induction false} PacketsConcat(a: seq<Event>, b: seq<Event>, id: nat)
    ensures Packets(a + b, id) == Packets(a, id) + Packets(b, id)
  {
    if b == [] {
      assert a + b == a;
    } else {
      PacketsConcat(a, b[..|b| - 1], id);
      assert (a + b)[..|a + b| - 1] == a + b[..|b| - 1];
    }
  }

  lemma {:induction false} PacketsOfPacketIns(packets: seq<bytes>, id: nat)
    ensures Packets(PacketIns(packets, id), id) == packets
  {
    if packets != [] {
      var front := packets[..|packets| - 1];
      PacketsOfPacketIns(front, id);
      assert PacketIns(packets, id)[..|packets| - 1] == PacketIns(front, id);
    }
  }

  // The session's packets come from its link alone.
  predicate LinkOnly(pipe: seq<PipeEvent>, id: nat) {
    forall p :: p in pipe && p.OnEndpoint? && p.e.PacketIn? ==> p.e.id != id
  }

  predicate Unregistered(pipe: seq<PipeEvent>, id: nat) {
    forall p :: p in pipe && p.OnEndpoint? ==> !Registers(p.e, id)
  }

  predicate Undisturbed(pipe: seq<PipeEvent>, id: nat) {
    forall p :: p in pipe && p.OnEndpoint? ==> KeepsOpen([p.e], id)
  }

  lemma EndpointAdds(events: seq<Event>, e: Event, id: nat)
    requires e.PacketIn? ==> e.id != id
    ensures Packets(events + [e], id) == Packets(events, id)
  {
    assert (events + [e])[..|events|] == events;
  }

  lemma LinkAdds(events: seq<Event>, packets: seq<bytes>, id: nat)
    ensures Packets(events + PacketIns(packets, id), id) == Packets(events, id) + packets
  {
    PacketsOfPacketIns(packets, id);
    PacketsConcat(events, PacketIns(packets, id), id);
  }

  lemma {:induction false} PipePackets(before: seq<P.LinkEvent>, pipe: seq<PipeEvent>, id: nat)
    requires LinkOnly(pipe, id)
    ensures Packets(EventsOf(before, pipe, id), id) == Emitted(before, LinkEvents(pipe))
  {
    if pipe == [] {
      EmittedNone(before);
    } else {
      var front, last := pipe[..|pipe| - 1], pipe[|pipe| - 1];
      assert last in pipe && forall p :: p in front ==> p in pipe;
      PipePackets(before, front, id);
      match last {
        case OnEndpoint(e) =>
          EndpointAdds(EventsOf(before, front, id), e, id);
          assert LinkEvents(pipe) == LinkEvents(front);
        case OnLink(l) =>
          LinkAdds(EventsOf(before, front, id), Emitted(before + LinkEvents(front), [l]), id);
          EmittedNext(before, LinkEvents(front), l);
      }
    }
  }

  lemma {:induction false} PipeRegistersNothing(before: seq<P.LinkEvent>, pipe: seq<PipeEvent>, id: nat)
    requires Unregistered(pipe, id)
    ensures forall event :: event in EventsOf(before, pipe, id) ==> !Registers(event, id)
  {
    if pipe != [] {
      var front := pipe[..|pipe| - 1];
      assert pipe[|pipe| - 1] in pipe && forall p :: p in front ==> p in pipe;
      PipeRegistersNothing(before, front, id);
    }
  }

  lemma {:induction false} PipeKeepsOpen(before: seq<P.LinkEvent>, pipe: seq<PipeEvent>, id: nat)
    requires Undisturbed(pipe, id)
    ensures KeepsOpen(EventsOf(before, pipe, id), id)
  {
    if pipe != [] {
      var front, last := pipe[..|pipe| - 1], pipe[|pipe| - 1];
      assert last in pipe && forall p :: p in front ==> p in pipe;
      PipeKeepsOpen(before, front, id);
      if last.OnEndpoint? {
        assert KeepsOpen([last.e], id) && last.e in [last.e];
      }
    }
  }

  // What a connection receives: what was unclaimed before its session, and what the session's link
  // emitted before the connection was made, up to 256 packets in all; then all it emitted until
  // the close.
  function Received(past: seq<Event>, pre: seq<PipeEvent>, mid: seq<PipeEvent>, id: nat): seq<bytes> {
    Capped(Unclaimed(past, id) + Emitted([], LinkEvents(pre))) + Emitted(LinkEvents(pre), LinkEvents(mid))
  }

  lemma EmittedAll(before: seq<P.LinkEvent>, more: seq<P.LinkEvent>)
    ensures Emitted([], before) + Emitted(before, more) == Payloads(P.LinkRun(before + more).emitted)
    ensures |Emitted([], before)| == |P.LinkRun(before).emitted|
  {
    assert [] + before == before;
    EmittedGrows(before, more);
    PayloadsSplit(P.LinkRun(before).emitted, P.LinkRun(before + more).emitted);
    EmittedFromStart(before);
  }

  lemma EmittedFromStart(events: seq<P.LinkEvent>)
    ensures Emitted([], events) == Payloads(P.LinkRun(events).emitted)
  {
    assert [] + events == events && P.LinkRun([]).emitted == [];
    assert P.LinkRun(events).emitted[0..] == P.LinkRun(events).emitted;
  }

  lemma PayloadsSplit(first: seq<P.Emission>, all: seq<P.Emission>)
    requires first <= all
    ensures Payloads(first) + Payloads(all[|first|..]) == Payloads(all)
  {
  }

  lemma CappedIff(stale: seq<bytes>, first: seq<bytes>, rest: seq<bytes>)
    ensures Capped(stale + first) + rest == stale + (first + rest) <==> |stale| + |first| <= MAX_PENDING_PACKETS
  {
    assert stale + first + rest == stale + (first + rest);
  }

  // Nothing of it is lost exactly when no more than 256 packets were waiting.
  lemma NothingIsLostIff(past: seq<Event>, pre: seq<PipeEvent>, mid: seq<PipeEvent>, id: nat)
    ensures var all := P.LinkRun(LinkEvents(pre) + LinkEvents(mid)).emitted;
            Received(past, pre, mid, id) == Unclaimed(past, id) + Payloads(all)
            <==> |Unclaimed(past, id)| + |P.LinkRun(LinkEvents(pre)).emitted| <= MAX_PENDING_PACKETS
  {
    EmittedAll(LinkEvents(pre), LinkEvents(mid));
    CappedIff(Unclaimed(past, id), Emitted([], LinkEvents(pre)), Emitted(LinkEvents(pre), LinkEvents(mid)));
  }

  // Short of that, what is received is what the session's link emitted and nothing else exactly
  // when no packet was left over from before the session.
  lemma NothingIsStaleIff(past: seq<Event>, pre: seq<PipeEvent>, mid: seq<PipeEvent>, id: nat)
    requires |Unclaimed(past, id)| + |P.LinkRun(LinkEvents(pre)).emitted| <= MAX_PENDING_PACKETS
    ensures Received(past, pre, mid, id) == Payloads(P.LinkRun(LinkEvents(pre) + LinkEvents(mid)).emitted)
            <==> Unclaimed(past, id) == []
  {
    NothingIsLostIff(past, pre, mid, id);
    var all := Payloads(P.LinkRun(LinkEvents(pre) + LinkEvents(mid)).emitted);
    assert |Unclaimed(past, id) + all| == |Unclaimed(past, id)| + |all|;
    assert [] + all == all;
  }

  // A packet that comes after the close is left over, and the next connection with the id gets it.
  lemma LatePacketIsInherited(id: nat, error: int, late: bytes)
    ensures var past := [SessionOpen(id)] + [SessionClose(id, error)] + [PacketIn(id, late)];
            && id !in Run(past).conns && Unclaimed(past, id) == [late]
            && Received(past, [], [], id) == [late]
  {
    var first, second := [SessionOpen(id)], [SessionOpen(id)] + [SessionClose(id, error)];
    var past := second + [PacketIn(id, late)];
    assert first[..0] == [] && second[..1] == first && past[..2] == second;
    assert Unclaimed(first, id) == [];
    assert Unclaimed(second, id) == [] + [];
    assert id in Run(first).conns && id !in Run(second).conns && id !in Run(past).conns;
    assert Unclaimed(past, id) == [] + [late];
    EmittedNone([]);
    assert [late] + [] == [late];
  }

  // The events at the endpoint, from its first to any time after the close.
  function EndpointEvents(
      past: seq<Event>, pre: seq<PipeEvent>, reg: Event, mid: seq<PipeEvent>, error: int, post: seq<Event>, id: nat)
    : seq<Event>
  {
    past + EventsOf([], pre, id) + [reg] + EventsOf(LinkEvents(pre), mid, id) + [SessionClose(id, error)] + post
  }

  // From send() to recv(), over every interleaving of the session's link, both channels included,
  // with whatever else happens at the endpoint: recv() gives the packets received, in order, and
  // then the close error for ever; the reliable ones among what the link emitted are a prefix of
  // those accepted, all of them once the channel had opened and drained; and the unreliable ones
  // are the payloads of what arrived on that channel, each of them accepted.
  lemma ReceivedIsWhatWasSent(
      past: seq<Event>, pre: seq<PipeEvent>, reg: Event, mid: seq<PipeEvent>, error: int, post: seq<Event>,
      id: nat, n: nat)
    requires id !in Run(past).conns && Registers(reg, id)
    requires LinkOnly(pre, id) && Unregistered(pre, id) && LinkOnly(mid, id) && Undisturbed(mid, id)
    ensures var e := Run(EndpointEvents(past, pre, reg, mid, error, post, id));
            var who, received := |Run(past + EventsOf([], pre, id)).all|, Received(past, pre, mid, id);
            && who < |e.all|
            && |RecvTimes(e.all[who], n).outcomes| == |e.all[who].outcomes| + n
            && forall i :: 0 <= i < |RecvTimes(e.all[who], n).outcomes| ==>
                 RecvTimes(e.all[who], n).outcomes[i] == if i < |received| then Got(received[i]) else Raised(error)
    ensures var link := LinkEvents(pre) + LinkEvents(mid);
            var l := P.LinkRun(link);
            && P.ReliablePackets(l.emitted) <= l.accepted
            && (P.OpenedBy(link, true) && l.taken == |l.channels.reliable.wire| ==>
                  P.ReliablePackets(l.emitted) == l.accepted)
            && (P.Genuine(link) ==>
                  && (forall m :: m in l.emitted && !m.reliable ==> m.packet in l.acceptedUnreliable)
                  && P.Frames(P.Packets(l.emitted, false)) == P.Datagrams(link))
  {
    var link := LinkEvents(pre) + LinkEvents(mid);
    P.StreamRefinement(link);
    if P.Genuine(link) {
      P.UnreliablePacketsAreWhole(link);
    }
    PipeRegistersNothing([], pre, id);
    PipeKeepsOpen(LinkEvents(pre), mid, id);
    PipePackets([], pre, id);
    PipePackets(LinkEvents(pre), mid, id);
    UnclaimedGrows(past, EventsOf([], pre, id), id);
    PacketsThenCloseError(past + EventsOf([], pre, id), reg, EventsOf(LinkEvents(pre), mid, id), error, post, id, n);
  }
}
