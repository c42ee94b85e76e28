// One WebRTC peer: two data channels with deferred sends, packet delivery, and the buffer of
// remote candidates that arrived before the remote description.
module PeerConnections {
  import opened Basics
  import opened Framing

  // ---- one data channel ----

  // `pending` waits for the channel to open; `wire` is everything handed to the channel, in order.
  datatype Lane = Lane(registered: bool, open: bool, pending: seq<bytes>, wire: seq<bytes>)

  const NO_LANE := Lane(false, false, [], [])

  function SendAll(l: Lane, fragments: seq<bytes>): Lane {
    if l.registered && l.open then l.(wire := l.wire + fragments) else l.(pending := l.pending + fragments)
  }

  function OpenLane(l: Lane): Lane {
    if l.open then l else l.(open := true, wire := l.wire + l.pending, pending := [])
  }

  // What the channel has carried or will carry once it opens.
  function Stream(l: Lane): seq<bytes> { l.wire + l.pending }

  predicate LaneOk(l: Lane) { l.open ==> l.registered && l.pending == [] }

  lemma SendExtendsStream(l: Lane, fragments: seq<bytes>)
    requires LaneOk(l)
    ensures LaneOk(SendAll(l, fragments)) && Stream(SendAll(l, fragments)) == Stream(l) + fragments
  {
    assert l.wire + fragments + [] == l.wire + [] + fragments;
  }

  // ---- the two channels ----

  // `fired` and `calls`: whether on_channels_open was called, and how often.
  datatype Channels = Channels(reliable: Lane, unreliable: Lane, fired: bool, calls: nat)

  function LaneOf(c: Channels, isReliable: bool): Lane { if isReliable then c.reliable else c.unreliable }

  function WithLane(c: Channels, isReliable: bool, l: Lane): Channels {
    if isReliable then c.(reliable := l) else c.(unreliable := l)
  }

  // The open callback of a channel. The last of the two to open reports it.
  function OpenIn(c: Channels, isReliable: bool): Channels {
    if LaneOf(c, isReliable).open then c
    else
      var c1 := WithLane(c, isReliable, OpenLane(LaneOf(c, isReliable)));
      if c1.reliable.open && c1.unreliable.open && !c1.fired then c1.(fired := true, calls := c1.calls + 1) else c1
  }

  // A channel may already be open when it is registered.
  function RegisterIn(c: Channels, isReliable: bool, alreadyOpen: bool): Channels {
    var c1 := WithLane(c, isReliable, LaneOf(c, isReliable).(registered := true));
    if alreadyOpen then OpenIn(c1, isReliable) else c1
  }

  function SendIn(c: Channels, isReliable: bool, fragments: seq<bytes>): Channels {
    WithLane(c, isReliable, SendAll(LaneOf(c, isReliable), fragments))
  }

  // Both lanes in order, and on_channels_open called once, when the second channel opened.
  predicate ChannelsOk(c: Channels) {
    && LaneOk(c.reliable) && LaneOk(c.unreliable)
    && (c.fired <==> c.reliable.open && c.unreliable.open)
    && c.calls == if c.fired then 1 else 0
  }

  // Whatever is registered, already open or not, and whatever opens: its channel is open from
  // then on, with nothing deferred any more and everything deferred handed over in order; the
  // other channel is as it was.
  lemma RegisteringKeeps(c: Channels, isReliable: bool, alreadyOpen: bool)
    requires ChannelsOk(c)
    ensures var c1 := RegisterIn(c, isReliable, alreadyOpen);
            var l, l1 := LaneOf(c, isReliable), LaneOf(c1, isReliable);
            && ChannelsOk(c1) && LaneOf(c1, !isReliable) == LaneOf(c, !isReliable)
            && l1.registered && (l1.open <==> l.open || alreadyOpen)
            && (alreadyOpen ==> l1.pending == [] && l1.wire == l.wire + l.pending)
            && (!alreadyOpen ==> l1.pending == l.pending && l1.wire == l.wire)
  {
    var l := LaneOf(c, isReliable);
    assert l.open ==> l.wire + l.pending == l.wire;
  }

  lemma OpeningKeeps(c: Channels, isReliable: bool)
    requires ChannelsOk(c) && LaneOf(c, isReliable).registered
    ensures var c1 := OpenIn(c, isReliable);
            var l, l1 := LaneOf(c, isReliable), LaneOf(c1, isReliable);
            && ChannelsOk(c1) && LaneOf(c1, !isReliable) == LaneOf(c, !isReliable)
            && l1.registered && l1.open && l1.pending == [] && l1.wire == l.wire + l.pending
  {
    var l := LaneOf(c, isReliable);
    assert l.open ==> l.wire + l.pending == l.wire;
  }

  // ---- one direction of the packet path ----

  datatype Emission = Emission(reliable: bool, packet: bytes)

  // The sender's channels and the packets whose push returned True; how many messages of the
  // reliable channel have been delivered; and the receiver's reassembly buffer and on_packet calls.
  datatype Link = Link(
    channels: Channels, accepted: seq<bytes>, acceptedUnreliable: seq<bytes>,
    taken: nat, buffer: bytes, emitted: seq<Emission>)

  datatype LinkEvent =
    | Push(data: bytes, kind: SendType)
    | Register(isReliable: bool, alreadyOpen: bool)
    | Open(isReliable: bool)
    | Take
    | Datagram(data: bytes)

  function ReliableEmissions(packets: seq<bytes>): seq<Emission> {
    seq(|packets|, i requires 0 <= i < |packets| => Emission(true, packets[i]))
  }

  function LinkStep(l: Link, e: LinkEvent): Link {
    match e
    case Push(data, Reliable) =>
      if Accepts(data, Reliable)
      then l.(channels := SendIn(l.channels, true, Fragments(data)), accepted := l.accepted + [data]) else l
    case Push(data, Unreliable) =>
      if Accepts(data, Unreliable)
      then l.(channels := SendIn(l.channels, false, [Frame(0, data)]),
              acceptedUnreliable := l.acceptedUnreliable + [data])
      else l
    case Register(isReliable, alreadyOpen) => l.(channels := RegisterIn(l.channels, isReliable, alreadyOpen))
    case Open(isReliable) =>
      if LaneOf(l.channels, isReliable).registered then l.(channels := OpenIn(l.channels, isReliable)) else l
    case Take =>
      if l.taken < |l.channels.reliable.wire| then
        var r := Receive(Reassembly(l.buffer, []), l.channels.reliable.wire[l.taken]);
        l.(taken := l.taken + 1, buffer := r.buffer, emitted := l.emitted + ReliableEmissions(r.packets))
      else l
    case Datagram(data) =>
      if data == [] then l else l.(emitted := l.emitted + [Emission(false, data[1..])])
  }

  const NEW_CHANNELS := Channels(NO_LANE, NO_LANE, false, 0)
  const NEW_LINK := Link(NEW_CHANNELS, [], [], 0, [], [])

  function LinkRun(events: seq<LinkEvent>): Link {
    if events == [] then NEW_LINK else LinkStep(LinkRun(events[..|events| - 1]), events[|events| - 1])
  }

  // The packets of one channel among those the receiver got.
  function Packets(emitted: seq<Emission>, reliable: bool): seq<bytes> {
    if emitted == [] then []
    else
      var front := Packets(emitted[..|emitted| - 1], reliable);
      if emitted[|emitted| - 1].reliable == reliable then front + [emitted[|emitted| - 1].packet] else front
  }

  function ReliablePackets(emitted: seq<Emission>): seq<bytes> { Packets(emitted, true) }

  // Some event up to here found the channel open, or opened it.
  predicate OpenedBy(events: seq<LinkEvent>, isReliable: bool) {
    exists i :: 0 <= i < |events| &&
      (events[i] == Register(isReliable, true) || (events[i] == Open(isReliable) && RegisteredBy(events[..i], isReliable)))
  }

  predicate RegisteredBy(events: seq<LinkEvent>, isReliable: bool) {
    exists e :: e in events && e.Register? && e.isReliable == isReliable
  }

  lemma OpenedNext(events: seq<LinkEvent>, isReliable: bool)
    requires events != []
    ensures var front, last := events[..|events| - 1], events[|events| - 1];
            && (RegisteredBy(events, isReliable)
                <==> RegisteredBy(front, isReliable) || (last.Register? && last.isReliable == isReliable))
            && (OpenedBy(events, isReliable)
                <==> || OpenedBy(front, isReliable) || last == Register(isReliable, true)
                     || (last == Open(isReliable) && RegisteredBy(front, isReliable)))
  {
    var front, last := events[..|events| - 1], events[|events| - 1];
    assert events == front + [last];
    assert forall i :: 0 <= i < |front| ==> front[..i] == events[..i] && front[i] == events[i];
    assert front == events[..|front|];
    if RegisteredBy(front, isReliable) {
      var e :| e in front && e.Register? && e.isReliable == isReliable;
      assert e in events;
    }
    if OpenedBy(front, isReliable) {
      var i :| 0 <= i < |front| &&
        (front[i] == Register(isReliable, true) || (front[i] == Open(isReliable) && RegisteredBy(front[..i], isReliable)));
      assert events[i] == front[i] && events[..i] == front[..i];
    }
  }

  predicate ChannelFits(events: seq<LinkEvent>, l: Lane, isReliable: bool) {
    && (l.registered <==> RegisteredBy(events, isReliable))
    && (l.open <==> OpenedBy(events, isReliable))
  }

  lemma ChannelsStep(l: Link, e: LinkEvent)
    requires ChannelsOk(l.channels)
    ensures ChannelsOk(LinkStep(l, e).channels)
    ensures forall isReliable ::
      var lane, lane1 := LaneOf(l.channels, isReliable), LaneOf(LinkStep(l, e).channels, isReliable);
      && (lane1.registered <==> lane.registered || (e.Register? && e.isReliable == isReliable))
      && (lane1.open <==> || lane.open || e == Register(isReliable, true)
                          || (e == Open(isReliable) && lane.registered))
  {
    match e {
      case Register(isReliable, alreadyOpen) => RegisteringKeeps(l.channels, isReliable, alreadyOpen);
      case Open(isReliable) =>
        if LaneOf(l.channels, isReliable).registered {
          OpeningKeeps(l.channels, isReliable);
        }
      case _ =>
    }
  }

  // In every run a channel is open exactly when it was found open at its registration or has
  // opened since, and on_channels_open has been called exactly once when both are, and not before.
  lemma {:induction false} ChannelsOpenOnce(events: seq<LinkEvent>)
    ensures var c := LinkRun(events).channels;
            && ChannelsOk(c)
            && ChannelFits(events, c.reliable, true) && ChannelFits(events, c.unreliable, false)
            && c.calls == if OpenedBy(events, true) && OpenedBy(events, false) then 1 else 0
  {
    if events != [] {
      var front, last := events[..|events| - 1], events[|events| - 1];
      ChannelsOpenOnce(front);
      ChannelsStep(LinkRun(front), last);
      OpenedNext(events, true);
      OpenedNext(events, false);
      var c := LinkRun(events).channels;
      assert LaneOf(c, true) == c.reliable && LaneOf(c, false) == c.unreliable;
    }
  }

  ghost predicate ReliableOk(l: Link) {
    && ChannelsOk(l.channels)
    && (forall p :: p in l.accepted ==> Accepts(p, Reliable))
    && Stream(l.channels.reliable) == AllFragments(l.accepted)
    && l.taken <= |l.channels.reliable.wire|
    && ReceiveAll(EMPTY, l.channels.reliable.wire[..l.taken]) == Reassembly(l.buffer, ReliablePackets(l.emitted))
  }

  lemma PushKeeps(l: Link, data: bytes)
    requires ReliableOk(l) && Accepts(data, Reliable)
    ensures ReliableOk(LinkStep(l, Push(data, Reliable)))
  {
    var l1 := LinkStep(l, Push(data, Reliable));
    SendExtendsStream(l.channels.reliable, Fragments(data));
    assert l1.accepted[..|l1.accepted| - 1] == l.accepted;
    assert l1.channels.reliable.wire[..l1.taken] == l.channels.reliable.wire[..l.taken];
  }

  lemma TakeKeeps(l: Link)
    requires ReliableOk(l) && l.taken < |l.channels.reliable.wire|
    ensures ReliableOk(LinkStep(l, Take))
  {
    var l1 := LinkStep(l, Take);
    var wire := l.channels.reliable.wire;
    var message := wire[l.taken];
    assert wire[..l1.taken] == wire[..l.taken] + [message];
    ReceiveConcat(EMPTY, wire[..l.taken], [message]);
    ReceiveOne(Reassembly(l.buffer, ReliablePackets(l.emitted)), message);
    if message != [] && message[0] == 0 {
      assert l1.emitted[..|l1.emitted| - 1] == l.emitted;
    } else {
      assert l1.emitted == l.emitted;
    }
  }

  // The reliable stream goes on where it was.
  lemma StreamKept(l: Link, c1: Channels)
    requires ReliableOk(l) && ChannelsOk(c1)
    requires Stream(c1.reliable) == Stream(l.channels.reliable) && l.channels.reliable.wire <= c1.reliable.wire
    ensures ReliableOk(l.(channels := c1))
  {
    assert c1.reliable.wire[..l.taken] == l.channels.reliable.wire[..l.taken];
  }

  lemma RegisterKeeps(l: Link, isReliable: bool, alreadyOpen: bool)
    requires ReliableOk(l)
    ensures ReliableOk(LinkStep(l, Register(isReliable, alreadyOpen)))
  {
    RegisteringKeeps(l.channels, isReliable, alreadyOpen);
    StreamKept(l, RegisterIn(l.channels, isReliable, alreadyOpen));
  }

  lemma OpenKeeps(l: Link, isReliable: bool)
    requires ReliableOk(l)
    ensures ReliableOk(LinkStep(l, Open(isReliable)))
  {
    if LaneOf(l.channels, isReliable).registered {
      OpeningKeeps(l.channels, isReliable);
      StreamKept(l, OpenIn(l.channels, isReliable));
    }
  }

  lemma LinkStepKeeps(l: Link, e: LinkEvent)
    requires ReliableOk(l)
    ensures ReliableOk(LinkStep(l, e))
  {
    match e {
      case Push(data, Reliable) =>
        if Accepts(data, Reliable) {
          PushKeeps(l, data);
        }
      case Push(data, Unreliable) =>
      case Take =>
        if l.taken < |l.channels.reliable.wire| {
          TakeKeeps(l);
        }
      case Datagram(data) =>
        if data != [] {
          assert LinkStep(l, e).emitted[..|l.emitted|] == l.emitted;
        }
      case Register(isReliable, alreadyOpen) => RegisterKeeps(l, isReliable, alreadyOpen);
      case Open(isReliable) => OpenKeeps(l, isReliable);
    }
  }

  lemma {:induction false} LinkInvariant(events: seq<LinkEvent>)
    ensures ReliableOk(LinkRun(events))
  {
    if events == [] {
      assert NEW_LINK.channels.reliable.wire[..0] == [];
    } else {
      LinkInvariant(events[..|events| - 1]);
      LinkStepKeeps(LinkRun(events[..|events| - 1]), events[|events| - 1]);
    }
  }

  // Over every interleaving of pushes of both kinds, registrations of closed and of open
  // channels, openings, in-order reliable deliveries and arbitrary unreliable arrivals, the
  // reliable packets the receiver gets are a prefix of the accepted ones, and all of them once
  // the channel has opened and drained.
  lemma StreamRefinement(events: seq<LinkEvent>)
    ensures var l := LinkRun(events);
            && ReliablePackets(l.emitted) <= l.accepted
            && (OpenedBy(events, true) && l.taken == |l.channels.reliable.wire| ==>
                  ReliablePackets(l.emitted) == l.accepted)
  {
    var l := LinkRun(events);
    LinkInvariant(events);
    ChannelsOpenOnce(events);
    var wire := l.channels.reliable.wire;
    assert AllFragments(l.accepted)[..l.taken] == wire[..l.taken];
    PrefixReassembles(l.accepted, wire[..l.taken]);
    if l.channels.reliable.pending == [] && l.taken == |wire| {
      assert wire[..l.taken] == wire == Stream(l.channels.reliable);
    }
  }

  // ---- the unreliable channel ----

  // Each unreliable arrival is a message handed to the unreliable channel before: possibly
  // lost, repeated or reordered, but not made up.
  predicate Genuine(events: seq<LinkEvent>) {
    events != [] ==>
      && Genuine(events[..|events| - 1])
      && (events[|events| - 1].Datagram? ==>
            events[|events| - 1].data in LinkRun(events[..|events| - 1]).channels.unreliable.wire)
  }

  function Frames(packets: seq<bytes>): seq<bytes> {
    seq(|packets|, i requires 0 <= i < |packets| => Frame(0, packets[i]))
  }

  // The unreliable arrivals, in order.
  function Datagrams(events: seq<LinkEvent>): seq<bytes> {
    if events == [] then []
    else
      var last := events[|events| - 1];
      Datagrams(events[..|events| - 1]) + if last.Datagram? then [last.data] else []
  }

  ghost predicate UnreliableOk(l: Link, arrived: seq<bytes>) {
    && ChannelsOk(l.channels)
    && Stream(l.channels.unreliable) == Frames(l.acceptedUnreliable)
    && (forall m :: m in l.emitted && !m.reliable ==> m.packet in l.acceptedUnreliable)
    && Frames(Packets(l.emitted, false)) == arrived
  }

  lemma FramesNext(packets: seq<bytes>, data: bytes)
    ensures Frames(packets + [data]) == Frames(packets) + [Frame(0, data)]
  {
  }

  lemma FrameOf(message: bytes, packets: seq<bytes>)
    requires message in Frames(packets)
    ensures message != [] && message[1..] in packets && Frame(0, message[1..]) == message
  {
    var i :| 0 <= i < |packets| && message == Frames(packets)[i];
    assert message[1..] == packets[i];
  }

  lemma DatagramStep(l: Link, data: bytes, arrived: seq<bytes>)
    requires UnreliableOk(l, arrived) && data in l.channels.unreliable.wire
    ensures UnreliableOk(LinkStep(l, Datagram(data)), arrived + [data])
  {
    var l1 := LinkStep(l, Datagram(data));
    assert data in Stream(l.channels.unreliable);
    FrameOf(data, l.acceptedUnreliable);
    assert l1.emitted[..|l.emitted|] == l.emitted;
    FramesNext(Packets(l.emitted, false), data[1..]);
  }

  lemma {:induction false} ReliableAdds(emitted: seq<Emission>, packets: seq<bytes>)
    ensures Packets(emitted + ReliableEmissions(packets), false) == Packets(emitted, false)
  {
    if packets == [] {
      assert emitted + ReliableEmissions(packets) == emitted;
    } else {
      var front := packets[..|packets| - 1];
      ReliableAdds(emitted, front);
      var all := emitted + ReliableEmissions(packets);
      assert all[..|all| - 1] == emitted + ReliableEmissions(front);
    }
  }

  lemma UnreliableStep(l: Link, e: LinkEvent, arrived: seq<bytes>)
    requires UnreliableOk(l, arrived)
    requires e.Datagram? ==> e.data in l.channels.unreliable.wire
    ensures UnreliableOk(LinkStep(l, e), arrived + if e.Datagram? then [e.data] else [])
  {
    assert arrived + [] == arrived;
    match e {
      case Push(data, Unreliable) =>
        if Accepts(data, Unreliable) {
          SendExtendsStream(l.channels.unreliable, [Frame(0, data)]);
          FramesNext(l.acceptedUnreliable, data);
        }
      case Push(data, Reliable) =>
      case Datagram(data) => DatagramStep(l, data, arrived);
      case Take =>
        if l.taken < |l.channels.reliable.wire| {
          ReliableAdds(l.emitted, Receive(Reassembly(l.buffer, []), l.channels.reliable.wire[l.taken]).packets);
        }
      case Register(isReliable, alreadyOpen) => RegisteringKeeps(l.channels, isReliable, alreadyOpen);
      case Open(isReliable) =>
        if LaneOf(l.channels, isReliable).registered {
          OpeningKeeps(l.channels, isReliable);
        }
    }
  }

  lemma {:induction false} UnreliableInvariant(events: seq<LinkEvent>)
    requires Genuine(events)
    ensures UnreliableOk(LinkRun(events), Datagrams(events))
  {
    if events != [] {
      UnreliableInvariant(events[..|events| - 1]);
      UnreliableStep(LinkRun(events[..|events| - 1]), events[|events| - 1], Datagrams(events[..|events| - 1]));
    }
  }

  // Each unreliable packet accepted is handed to the channel once, in order, when it is open; each
  // arrival gives its packet, unaltered and unsplit, and every one received was accepted.
  lemma UnreliablePacketsAreWhole(events: seq<LinkEvent>)
    requires Genuine(events)
    ensures var l := LinkRun(events);
            && (forall m :: m in l.emitted && !m.reliable ==> m.packet in l.acceptedUnreliable)
            && Frames(Packets(l.emitted, false)) == Datagrams(events)
            && (OpenedBy(events, false) ==> l.channels.unreliable.wire == Frames(l.acceptedUnreliable))
  {
    UnreliableInvariant(events);
    ChannelsOpenOnce(events);
  }

  // ---- what the channels are given ----

  // Every message on either channel fits the size limit that the SDP advertises.
  predicate AllFit(messages: seq<bytes>) { forall m :: m in messages ==> 1 <= |m| <= MAX_MESSAGE_SIZE }

  lemma {:induction false} FragmentsFit(packets: seq<bytes>)
    requires forall p :: p in packets ==> Accepts(p, Reliable)
    ensures AllFit(AllFragments(packets))
  {
    if packets != [] {
      FragmentsFit(packets[..|packets| - 1]);
      FragmentationShape(packets[|packets| - 1]);
    }
  }

  lemma UnreliableStreamStep(l: Link, e: LinkEvent)
    requires ChannelsOk(l.channels)
    ensures var stream, stream1 := Stream(l.channels.unreliable), Stream(LinkStep(l, e).channels.unreliable);
            stream1 == stream + if e.Push? && e.kind.Unreliable? && Accepts(e.data, Unreliable)
                                then [Frame(0, e.data)] else []
  {
    var stream := Stream(l.channels.unreliable);
    assert stream + [] == stream;
    match e {
      case Push(data, Unreliable) =>
        if Accepts(data, Unreliable) {
          SendExtendsStream(l.channels.unreliable, [Frame(0, data)]);
        }
      case Register(isReliable, alreadyOpen) => RegisteringKeeps(l.channels, isReliable, alreadyOpen);
      case Open(isReliable) =>
        if LaneOf(l.channels, isReliable).registered {
          OpeningKeeps(l.channels, isReliable);
        }
      case _ =>
    }
  }

  lemma {:induction false} UnreliableFits(events: seq<LinkEvent>)
    ensures AllFit(Stream(LinkRun(events).channels.unreliable))
  {
    if events != [] {
      UnreliableFits(events[..|events| - 1]);
      ChannelsOpenOnce(events[..|events| - 1]);
      UnreliableStreamStep(LinkRun(events[..|events| - 1]), events[|events| - 1]);
    }
  }

  lemma MessagesFit(events: seq<LinkEvent>)
    ensures var c := LinkRun(events).channels; AllFit(c.reliable.wire) && AllFit(c.unreliable.wire)
  {
    var l := LinkRun(events);
    LinkInvariant(events);
    FragmentsFit(l.accepted);
    UnreliableFits(events);
    assert forall m :: m in l.channels.reliable.wire ==> m in Stream(l.channels.reliable);
    assert forall m :: m in l.channels.unreliable.wire ==> m in Stream(l.channels.unreliable);
  }

  // ---- remote candidates ----

  // `remotes` and `applied` record the setRemoteDescription and addIceCandidate calls; `arrived`
  // records every candidate given to add_remote_candidate.
  datatype Ice = Ice(
    remotes: seq<string>, remoteSet: bool, pending: seq<string>, applied: seq<string>, arrived: seq<string>)

  const NEW_ICE := Ice([], false, [], [], [])

  // CANDIDATEADD text, with or without its prefix, as the ICE library takes it.
  function CandidateValue(text: string): string {
    if "candidate:" <= text then text[|"candidate:"|..] else text
  }

  // The prefix of the signaling text comes off, once; a text without it is taken as it is.
  lemma CandidateIsUnprefixed(value: string, text: string)
    ensures CandidateValue("candidate:" + value) == value
    ensures !("candidate:" <= text) ==> CandidateValue(text) == text
  {
    assert ("candidate:" + value)[|"candidate:"|..] == value;
  }

  function AddCandidate(ice: Ice, text: string): Ice {
    var c := CandidateValue(text);
    if ice.remoteSet then ice.(applied := ice.applied + [c], arrived := ice.arrived + [c])
    else ice.(pending := ice.pending + [c], arrived := ice.arrived + [c])
  }

  // One turn of the flush loop at index k: apply a candidate, or empty the buffer and stop.
  function FlushAt(ice: Ice, k: nat): Ice {
    if k < |ice.pending| then ice.(applied := ice.applied + [ice.pending[k]]) else ice.(pending := [])
  }

  // The remote description is set, and the flush loop runs up to its first await.
  function Describe(ice: Ice, sdp: string): Ice {
    FlushAt(ice.(remotes := ice.remotes + [sdp], remoteSet := true), 0)
  }

  // ---- the peer object ----

  class PeerConnection {
    const packets: PacketQueue
    const onPacket: bool
    var reliableRegistered: bool
    var unreliableRegistered: bool
    var reliableOpen: bool
    var unreliableOpen: bool
    var pendingReliable: seq<bytes>
    var pendingUnreliable: seq<bytes>
    // The messages handed to each channel, and the packets handed to on_packet, in order.
    var wireReliable: seq<bytes>
    var wireUnreliable: seq<bytes>
    var delivered: seq<bytes>
    var channelsOpenFired: bool
    // How often on_channels_open was called.
    var channelsOpenCalls: nat

    var remotes: seq<string>
    var remoteDescriptionSet: bool
    var pendingRemoteCandidates: seq<string>
    var applied: seq<string>
    ghost var arrived: seq<string>

    ghost function Reliable(): Lane
      reads this
    {
      Lane(reliableRegistered, reliableOpen, pendingReliable, wireReliable)
    }

    ghost function Unreliable(): Lane
      reads this
    {
      Lane(unreliableRegistered, unreliableOpen, pendingUnreliable, wireUnreliable)
    }

    ghost function Lanes(): Channels
      reads this
    {
      Channels(Reliable(), Unreliable(), channelsOpenFired, channelsOpenCalls)
    }

    ghost function Candidates(): Ice
      reads this
    {
      Ice(remotes, remoteDescriptionSet, pendingRemoteCandidates, applied, arrived)
    }

    ghost function Inbound(): Reassembly
      reads packets
    {
      Reassembly(packets.reassembly, packets.received)
    }

    // The dialer creates both channels at once; a listener gets them from the remote offer.
    constructor (isDialer: bool, onPacket: bool)
      ensures Reliable() == Unreliable() == NO_LANE.(registered := isDialer)
      ensures Candidates() == NEW_ICE && Inbound() == EMPTY && delivered == []
      ensures !channelsOpenFired && channelsOpenCalls == 0
      ensures this.onPacket == onPacket && fresh(packets)
    {
      packets := new PacketQueue();
      this.onPacket := onPacket;
      reliableRegistered, unreliableRegistered := isDialer, isDialer;
      reliableOpen, unreliableOpen, channelsOpenFired, channelsOpenCalls := false, false, false, 0;
      pendingReliable, pendingUnreliable, wireReliable, wireUnreliable := [], [], [], [];
      delivered := [];
      remotes, remoteDescriptionSet, pendingRemoteCandidates, applied, arrived := [], false, [], [], [];
    }

    // ---- channels ----

    method RegisterChannel(isReliable: bool, alreadyOpen: bool)
      modifies this
      ensures Candidates() == old(Candidates()) && delivered == old(delivered)
      ensures Lanes() == RegisterIn(old(Lanes()), isReliable, alreadyOpen)
      ensures alreadyOpen ==> if isReliable then reliableOpen else unreliableOpen
      ensures alreadyOpen && isReliable && !old(reliableOpen) ==>
                pendingReliable == [] && wireReliable == old(wireReliable) + old(pendingReliable)
      ensures alreadyOpen && !isReliable && !old(unreliableOpen) ==>
                pendingUnreliable == [] && wireUnreliable == old(wireUnreliable) + old(pendingUnreliable)
    {
      if isReliable {
        reliableRegistered := true;
      } else {
        unreliableRegistered := true;
      }
      if alreadyOpen {
        HandleChannelOpen(isReliable);
      }
    }

    method HandleChannelOpen(isReliable: bool)
      requires if isReliable then reliableRegistered else unreliableRegistered
      modifies this
      ensures Candidates() == old(Candidates()) && delivered == old(delivered)
      ensures Lanes() == OpenIn(old(Lanes()), isReliable)
    {
      if isReliable {
        if reliableOpen {
          return;
        }
        reliableOpen := true;
      } else {
        if unreliableOpen {
          return;
        }
        unreliableOpen := true;
      }
      SendPending(isReliable);
      if reliableOpen && unreliableOpen && !channelsOpenFired {
        channelsOpenFired := true;
        channelsOpenCalls := channelsOpenCalls + 1;
      }
    }

    // Hands the fragments deferred for a channel to it.
    method SendPending(isReliable: bool)
      modifies this`pendingReliable, this`pendingUnreliable, this`wireReliable, this`wireUnreliable
      ensures isReliable ==> pendingReliable == [] && wireReliable == old(wireReliable) + old(pendingReliable)
                             && Unreliable() == old(Unreliable())
      ensures !isReliable ==> pendingUnreliable == [] && wireUnreliable == old(wireUnreliable) + old(pendingUnreliable)
                              && Reliable() == old(Reliable())
    {
      var pending := if isReliable then pendingReliable else pendingUnreliable;
      for i := 0 to |pending|
        invariant pendingReliable == old(pendingReliable) && pendingUnreliable == old(pendingUnreliable)
        invariant wireReliable == old(wireReliable) + if isReliable then pending[..i] else []
        invariant wireUnreliable == old(wireUnreliable) + if isReliable then [] else pending[..i]
      {
        if isReliable {
          wireReliable := wireReliable + [pending[i]];
        } else {
          wireUnreliable := wireUnreliable + [pending[i]];
        }
      }
      if isReliable {
        pendingReliable := [];
      } else {
        pendingUnreliable := [];
      }
    }

    method ChannelSend(isReliable: bool, fragment: bytes)
      modifies this`pendingReliable, this`pendingUnreliable, this`wireReliable, this`wireUnreliable
      ensures isReliable ==> Reliable() == SendAll(old(Reliable()), [fragment]) && Unreliable() == old(Unreliable())
      ensures !isReliable ==> Unreliable() == SendAll(old(Unreliable()), [fragment]) && Reliable() == old(Reliable())
    {
      if isReliable {
        if reliableRegistered && reliableOpen {
          wireReliable := wireReliable + [fragment];
        } else {
          pendingReliable := pendingReliable + [fragment];
        }
      } else {
        if unreliableRegistered && unreliableOpen {
          wireUnreliable := wireUnreliable + [fragment];
        } else {
          pendingUnreliable := pendingUnreliable + [fragment];
        }
      }
    }

    // The queue's two send callbacks, run on the fragments one push has just produced.
    method SendFragments(isReliable: bool, fragments: seq<bytes>)
      modifies this`pendingReliable, this`pendingUnreliable, this`wireReliable, this`wireUnreliable
      ensures isReliable ==> Reliable() == SendAll(old(Reliable()), fragments) && Unreliable() == old(Unreliable())
      ensures !isReliable ==> Unreliable() == SendAll(old(Unreliable()), fragments) && Reliable() == old(Reliable())
    {
      for i := 0 to |fragments|
        invariant Reliable() == if isReliable then SendAll(old(Reliable()), fragments[..i]) else old(Reliable())
        invariant Unreliable() == if isReliable then old(Unreliable()) else SendAll(old(Unreliable()), fragments[..i])
      {
        ChannelSend(isReliable, fragments[i]);
        assert fragments[..i + 1] == fragments[..i] + [fragments[i]];
      }
    }

    method Send(data: bytes, kind: SendType) returns (ok: bool)
      modifies this`pendingReliable, this`pendingUnreliable, this`wireReliable, this`wireUnreliable
      modifies packets`reliableOut, packets`unreliableOut
      ensures ok == Accepts(data, kind)
      ensures Reliable() == if ok && kind.Reliable? then SendAll(old(Reliable()), Fragments(data)) else old(Reliable())
      ensures Unreliable() == if ok && kind.Unreliable? then SendAll(old(Unreliable()), [Frame(0, data)])
                              else old(Unreliable())
    {
      var n, m := |packets.reliableOut|, |packets.unreliableOut|;
      ok := packets.Push(data, kind);
      if ok {
        if kind == Framing.Reliable {
          SendFragments(true, packets.reliableOut[n..]);
        } else {
          SendFragments(false, packets.unreliableOut[m..]);
        }
      }
    }

    // The packets one channel message completes.
    ghost function Completed(isReliable: bool, data: bytes): seq<bytes>
      reads packets
    {
      if isReliable then Receive(Reassembly(packets.reassembly, []), data).packets
      else if data == [] then [] else [data[1..]]
    }

    method HandleChannelMessage(isReliable: bool, data: bytes)
      modifies this`delivered, packets`reassembly, packets`received
      ensures packets.reassembly == if isReliable then Receive(Reassembly(old(packets.reassembly), []), data).buffer
                                    else old(packets.reassembly)
      ensures onPacket ==> packets.received == []
                           && delivered == old(delivered) + old(packets.received) + old(Completed(isReliable, data))
      ensures !onPacket ==> delivered == old(delivered)
                            && packets.received == old(packets.received) + old(Completed(isReliable, data))
    {
      if isReliable {
        packets.OnReliableMessage(data);
      } else {
        packets.OnUnreliableMessage(data);
      }
      assert packets.received == old(packets.received) + old(Completed(isReliable, data));
      Deliver();
    }

    method Deliver()
      modifies this`delivered, packets`received
      ensures onPacket ==> packets.received == [] && delivered == old(delivered) + old(packets.received)
      ensures !onPacket ==> packets.received == old(packets.received) && delivered == old(delivered)
    {
      if !onPacket {
        return;
      }
      var packet := packets.Read(None);
      while packet.Some?
        invariant delivered + (if packet.Some? then [packet.value] else []) + packets.received
                  == old(delivered) + old(packets.received)
        invariant packet.None? ==> packets.received == []
        decreases packet.Some?, |packets.received|
      {
        delivered := delivered + [packet.value];
        packet := packets.Read(None);
      }
    }

    // ---- remote candidates ----

    method AddRemoteCandidate(text: string)
      modifies this`applied, this`pendingRemoteCandidates, this`arrived
      ensures Candidates() == AddCandidate(old(Candidates()), text)
      ensures |arrived| == |old(arrived)| + 1
      ensures forall value :: text == "candidate:" + value ==> arrived[|old(arrived)|] == value
      ensures !("candidate:" <= text) ==> arrived[|old(arrived)|] == text
    {
      var candidate := CandidateValue(text);
      arrived := arrived + [candidate];
      if remoteDescriptionSet {
        applied := applied + [candidate];
      } else {
        pendingRemoteCandidates := pendingRemoteCandidates + [candidate];
      }
    }

    // The turn of the flush loop that runs between two awaits; `again` when it awaits once more.
    method FlushTurn(k: nat) returns (again: bool)
      modifies this`applied, this`pendingRemoteCandidates
      ensures Candidates() == FlushAt(old(Candidates()), k)
      ensures again == (k < |old(pendingRemoteCandidates)|)
    {
      if k < |pendingRemoteCandidates| {
        applied := applied + [pendingRemoteCandidates[k]];
        return true;
      }
      pendingRemoteCandidates := [];
      return false;
    }

    method RemoteDescriptionApplied(sdp: string) returns (again: bool)
      modifies this`remotes, this`remoteDescriptionSet, this`applied, this`pendingRemoteCandidates
      ensures Candidates() == Describe(old(Candidates()), sdp)
      ensures again == (old(pendingRemoteCandidates) != [])
    {
      remotes := remotes + [sdp];
      remoteDescriptionSet := true;
      again := FlushTurn(0);
    }
  }
}
