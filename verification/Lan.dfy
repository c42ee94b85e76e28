// LAN signaling: signaling text inside discovery Message packets inside sealed datagrams.
module Lan {
  import opened Basics
  import opened Crypto
  import D = Discovery
  import N = Numerals
  import S = Signaling
  import Utf8

  type Address = (string, nat)

  datatype Datagram = Datagram(data: bytes, to: Address)
  datatype Signal = Signal(sender: nat, text: string)
  datatype Host = Host(id: nat, advertisement: bytes, address: Address)

  // One peer's transport. `sent`, `signals` and `hosts` record, in order, the datagrams handed
  // to the socket and the arguments of the two application callbacks.
  datatype Lan = Lan(
    local: nat, suite: Suite, broadcast: Address, attached: bool, peers: map<nat, Address>,
    advertisement: Option<bytes>, sent: seq<Datagram>, signals: seq<Signal>, hosts: seq<Host>)

  function Wire(suite: Suite, p: D.Packet): bytes { Seal(suite, D.Serialize(p)) }

  function SendPacket(l: Lan, p: D.Packet, to: Address): Lan {
    if l.attached then l.(sent := l.sent + [Datagram(Wire(l.suite, p), to)]) else l
  }

  function PeerAddress(l: Lan, id: nat): Address {
    if id in l.peers then l.peers[id] else l.broadcast
  }

  function SendSignal(l: Lan, to: nat, text: string): Lan {
    SendPacket(l, D.DiscoveryMessage(l.local, to, Utf8.Encode(text)), PeerAddress(l, to))
  }

  function HandleRequest(l: Lan, from: Address): Lan {
    match l.advertisement
    case None => l
    case Some(data) => SendPacket(l, D.DiscoveryResponse(l.local, data), from)
  }

  function HandleMessage(l: Lan, sender: nat, recipient: nat, payload: bytes): Lan {
    if recipient != l.local || payload == [] then l
    else
      match Utf8.Decode(payload)
      case None => l
      case Some(text) => l.(signals := l.signals + [Signal(sender, text)])
  }

  function HandlePacket(l: Lan, p: D.Packet, from: Address): Lan {
    if p.sender == l.local then l
    else
      var l1 := if p.sender != 0 then l.(peers := l.peers[p.sender := from]) else l;
      match p
      case DiscoveryRequest(_) => HandleRequest(l1, from)
      case DiscoveryResponse(sender, payload) => l1.(hosts := l1.hosts + [Host(sender, payload, from)])
      case DiscoveryMessage(sender, recipient, payload) => HandleMessage(l1, sender, recipient, payload)
  }

  function OnDatagram(l: Lan, data: bytes, from: Address): Lan {
    match Open(l.suite, data)
    case None => l
    case Some(plaintext) =>
      match D.Parse(plaintext)
      case None => l
      case Some(p) => HandlePacket(l, p, from)
  }

  // ---- the codec tower ----

  // The payload of a signaling text, as it leaves the sender.
  function Payload(text: string): bytes {
    D.Cut(Utf8.Encode(text), D.MESSAGE_PAYLOAD_MAX)
  }

  // The texts the addressed peer's application gets from one signaling message.
  function Heard(text: string): seq<string> {
    if Payload(text) == [] then []
    else
      match Utf8.Decode(Payload(text))
      case None => []
      case Some(t) => [t]
  }

  // The text of the message is not cut.
  predicate Fits(m: S.Message) { |Utf8.Encode(S.Serialize(m))| <= D.MESSAGE_PAYLOAD_MAX }

  function SignalsFrom(sender: nat, texts: seq<string>): seq<Signal> {
    seq(|texts|, i requires 0 <= i < |texts| => Signal(sender, texts[i]))
  }

  // A peer with the same key handles a sealed packet as the packet itself, cut to its cap.
  lemma WireIsRead(b: Lan, p: D.Packet, from: Address)
    requires b.suite.Lawful() && D.Packable(p)
    ensures OnDatagram(b, Wire(b.suite, p), from) == HandlePacket(b, D.Capped(p), from)
  {
    D.RoundTrip(p);
    SealOpens(b.suite, D.Serialize(p));
  }

  lemma SealedFits(suite: Suite, plaintext: bytes)
    requires suite.Lawful() && |plaintext| <= 1172
    ensures |Seal(suite, plaintext)| <= 1216
  {
    SealedLength(suite, plaintext);
  }

  lemma WireLength(suite: Suite, p: D.Packet)
    requires suite.Lawful() && D.Packable(p)
    ensures |Wire(suite, p)| <= 1216
  {
    D.RoundTrip(p);
    SealedFits(suite, D.Serialize(p));
  }

  lemma HandleText(b: Lan, sender: nat, to: nat, text: string, from: Address)
    requires sender != b.local
    ensures var b1 := HandlePacket(b, D.Capped(D.DiscoveryMessage(sender, to, Utf8.Encode(text))), from);
            && b1.signals == b.signals + (if to == b.local then SignalsFrom(sender, Heard(text)) else [])
            && b1.hosts == b.hosts && b1.sent == b.sent
            && b1.peers == if sender != 0 then b.peers[sender := from] else b.peers
  {
  }

  // The datagram a signaling text leaves in.
  function TextDatagram(a: Lan, to: nat, text: string): Datagram {
    Datagram(Wire(a.suite, D.DiscoveryMessage(a.local, to, Utf8.Encode(text))), PeerAddress(a, to))
  }

  // One send_signal, one datagram of at most 1216 bytes; the addressed peer hears Heard(text)
  // from the sender, and any other peer hears nothing.
  lemma SendThenReceive(a: Lan, b: Lan, to: nat, text: string, from: Address)
    requires a.attached && a.suite == b.suite && a.suite.Lawful()
    requires a.local <= U64_MAX && to <= U64_MAX && a.local != b.local
    ensures SendSignal(a, to, text) == a.(sent := a.sent + [TextDatagram(a, to, text)])
    ensures |TextDatagram(a, to, text).data| <= 1216
    ensures var b1 := OnDatagram(b, TextDatagram(a, to, text).data, from);
            && b1.signals == b.signals + (if to == b.local then SignalsFrom(a.local, Heard(text)) else [])
            && b1.hosts == b.hosts && b1.sent == b.sent
            && b1.peers == if a.local != 0 then b.peers[a.local := from] else b.peers
  {
    WireIsRead(b, D.DiscoveryMessage(a.local, to, Utf8.Encode(text)), from);
    WireLength(a.suite, D.DiscoveryMessage(a.local, to, Utf8.Encode(text)));
    HandleText(b, a.local, to, text, from);
  }

  // A broadcast Request reaching an advertising host brings back its advertisement, cut to
  // 1148 bytes, in one unicast answer; each side has then learned the other's address.
  lemma DiscoveryExchange(a: Lan, b: Lan, data: bytes, atA: Address, atB: Address)
    requires a.suite == b.suite && a.suite.Lawful() && b.attached && b.advertisement == Some(data)
    requires 0 < a.local <= U64_MAX && 0 < b.local <= U64_MAX && a.local != b.local
    ensures var answer := D.DiscoveryResponse(b.local, data);
            var b1 := OnDatagram(b, Wire(a.suite, D.DiscoveryRequest(a.local)), atA);
            var a1 := OnDatagram(a, Wire(b.suite, answer), atB);
            && b1 == b.(peers := b.peers[a.local := atA], sent := b.sent + [Datagram(Wire(b.suite, answer), atA)])
            && a1 == a.(peers := a.peers[b.local := atB],
                        hosts := a.hosts + [Host(b.local, D.Cut(data, D.RESPONSE_PAYLOAD_MAX), atB)])
  {
    WireIsRead(b, D.DiscoveryRequest(a.local), atA);
    WireIsRead(a, D.DiscoveryResponse(b.local, data), atB);
  }

  // A text cut inside its data no longer parses to the same message.
  lemma CutChangesMessage(m: S.Message, t: string)
    requires m.id <= U64_MAX
    requires t <= S.Serialize(m) && t != S.Serialize(m)
    ensures S.Parse(t) != Some(m)
  {
    var s := S.Serialize(m);
    if S.Parse(t) == Some(m) {
      S.TokenizeSerialized(m);
      S.TokenizeRejoins(t);
      var tokens := S.Tokenize(t).value;
      SameTokens(s, t);
      assert tokens.data != S.Data(m);
      assert m.ConnectError?;
      CutNumber(S.Data(m), tokens.data, m.error);
    }
  }

  // Cutting a text after its second space changes its data token only.
  lemma SameTokens(s: string, t: string)
    requires t <= s && S.Tokenize(t).Some?
    ensures S.Tokenize(s).Some?
    ensures var a, b := S.Tokenize(s).value, S.Tokenize(t).value;
            a.identifier == b.identifier && a.connection == b.connection && b.data <= a.data
            && (t != s ==> b.data != a.data)
  {
    S.TokenizeRejoins(t);
    var b := S.Tokenize(t).value;
    var rest := b.data + s[|t|..];
    assert s == t + s[|t|..];
    assert s == b.identifier + " " + b.connection + " " + rest;
    S.TokenizeJoined(b.identifier, b.connection, rest);
  }

  // A proper prefix of a printed integer is no integer, or a different one.
  lemma CutNumber(s: string, t: string, n: int)
    requires s == N.SignedDecimal(n) && t <= s && t != s
    ensures S.ParseInt(t) != Some(n)
  {
    if S.ParseInt(t).Some? {
      S.SignedRoundTrip(n);
      S.SignedExact(s);
      S.SignedExact(t);
      assert S.CanonicalInt(t);
    }
  }

  lemma ShortTextIsHeard(s: string)
    requires s != "" && |Utf8.Encode(s)| <= D.MESSAGE_PAYLOAD_MAX
    ensures Heard(s) == [s]
  {
    Utf8.DecodeEncode(s);
    assert Utf8.EncodeChar(s[0]) <= Utf8.Encode(s);
  }

  // An oversized text is cut: the peer hears nothing, or a proper prefix.
  lemma LongTextIsCut(s: string)
    requires |Utf8.Encode(s)| > D.MESSAGE_PAYLOAD_MAX
    ensures forall t :: t in Heard(s) ==> t <= s && t != s
  {
    var e := Utf8.Encode(s);
    Utf8.DecodeEncode(s);
    assert e == Payload(s) + e[D.MESSAGE_PAYLOAD_MAX..];
    if Utf8.Decode(Payload(s)).Some? {
      Utf8.DecodePrefix(Payload(s), e[D.MESSAGE_PAYLOAD_MAX..]);
    }
  }

  // The tower theorem: the addressed peer reads back the very message that was sent
  // if and only if the message's UTF-8 text fits the 1140-byte payload.
  lemma MessageArrivesExactly(m: S.Message)
    requires m.id <= U64_MAX
    ensures (exists t :: t in Heard(S.Serialize(m)) && S.Parse(t) == Some(m))
            <==> Fits(m)
  {
    var s := S.Serialize(m);
    if Fits(m) {
      S.RoundTrip(m);
      ShortTextIsHeard(s);
      assert s in Heard(s);
    } else {
      LongTextIsCut(s);
      forall t | t in Heard(s)
        ensures S.Parse(t) != Some(m)
      {
        CutChangesMessage(m, t);
      }
    }
  }

  // The texts one payload brings the application.
  function TextsOf(payload: bytes): seq<string> {
    if payload == [] then []
    else
      match Utf8.Decode(payload)
      case None => []
      case Some(text) => [text]
  }

  lemma ForeignEffects(l: Lan, p: D.Packet, from: Address)
    requires p.sender != l.local
    ensures var l1 := HandlePacket(l, p, from);
            && l1.peers == (if p.sender == 0 then l.peers else l.peers[p.sender := from])
            && l1.sent == l.sent
                          + (if p.DiscoveryRequest? && l.attached && l.advertisement.Some?
                             then [Datagram(Wire(l.suite, D.DiscoveryResponse(l.local, l.advertisement.value)), from)]
                             else [])
            && l1.hosts == l.hosts + (if p.DiscoveryResponse? then [Host(p.sender, p.payload, from)] else [])
            && l1.signals == l.signals
                             + (if p.DiscoveryMessage? && p.recipient == l.local
                                then SignalsFrom(p.sender, TextsOf(p.payload)) else [])
            && l1 == l.(peers := l1.peers, sent := l1.sent, hosts := l1.hosts, signals := l1.signals)
  {
  }

  // All a sealed packet does to a peer: its own packets do nothing; of every other it learns where
  // the sender is, unless the sender is 0; it answers requests alone, and to where they came
  // from, if it advertises; it reports responses alone as hosts, and as signals the texts of the
  // messages addressed to it.
  lemma PacketEffects(l: Lan, p: D.Packet, from: Address)
    requires l.suite.Lawful() && D.Packable(p)
    ensures var l1 := OnDatagram(l, Wire(l.suite, p), from);
            && (p.sender == l.local ==> l1 == l)
            && (p.sender != l.local ==>
                  && l1.peers == (if p.sender == 0 then l.peers else l.peers[p.sender := from])
                  && l1.sent == l.sent
                                + (if p.DiscoveryRequest? && l.attached && l.advertisement.Some?
                                   then [Datagram(Wire(l.suite, D.DiscoveryResponse(l.local, l.advertisement.value)), from)]
                                   else [])
                  && l1.hosts == l.hosts
                                 + (if p.DiscoveryResponse? then [Host(p.sender, D.Capped(p).payload, from)] else [])
                  && l1.signals == l.signals
                                   + (if p.DiscoveryMessage? && p.recipient == l.local
                                      then SignalsFrom(p.sender, TextsOf(D.Capped(p).payload)) else [])
                  && l1 == l.(peers := l1.peers, sent := l1.sent, hosts := l1.hosts, signals := l1.signals))
  {
    WireIsRead(l, p, from);
    if p.sender != l.local {
      ForeignEffects(l, D.Capped(p), from);
    }
  }

  // Bytes that no one with the key sealed do nothing.
  lemma ForgeriesDoNothing(l: Lan, data: bytes, from: Address)
    requires l.suite.Lawful() && forall plaintext :: data != Seal(l.suite, plaintext)
    ensures OnDatagram(l, data, from) == l
  {
    if Open(l.suite, data).Some? {
      OpenExact(l.suite, data, Open(l.suite, data).value);
    }
  }

  // A reply goes to where the peer was last heard from, and to the broadcast address as long as
  // it was not.
  lemma RepliesGoBack(l: Lan, p: D.Packet, from: Address, to: nat, text: string)
    requires l.suite.Lawful() && D.Packable(p) && l.attached && p.sender != l.local && p.sender != 0
    ensures var l1 := OnDatagram(l, Wire(l.suite, p), from);
            var l2 := SendSignal(l1, to, text);
            && |l2.sent| == |l1.sent| + 1 && l2.sent[..|l1.sent|] == l1.sent
            && (to == p.sender ==> l2.sent[|l1.sent|].to == from)
            && (to != p.sender && to !in l.peers ==> l2.sent[|l1.sent|].to == l.broadcast)
  {
    PacketEffects(l, p, from);
  }

  // ---- the transport object ----

  class LanTransport {
    const local: nat
    const suite: Suite
    const broadcast: Address
    var attached: bool
    var peers: map<nat, Address>
    var advertisement: Option<bytes>
    var sent: seq<Datagram>
    var signals: seq<Signal>
    var hosts: seq<Host>

    ghost function View(): Lan
      reads this
    {
      Lan(local, suite, broadcast, attached, peers, advertisement, sent, signals, hosts)
    }

    constructor (local: nat, suite: Suite, broadcast: Address, advertisement: Option<bytes>)
      ensures View() == Lan(local, suite, broadcast, false, map[], advertisement, [], [], [])
    {
      this.local, this.suite, this.broadcast := local, suite, broadcast;
      this.advertisement := advertisement;
      attached, peers, sent, signals, hosts := false, map[], [], [], [];
    }

    method ConnectionMade()
      modifies this
      ensures View() == old(View()).(attached := true)
    {
      attached := true;
    }

    method RememberPeer(id: nat, at: Address)
      modifies this
      ensures View() == old(View()).(peers := old(peers)[id := at])
    {
      peers := peers[id := at];
    }

    method SendDatagram(p: D.Packet, to: Address)
      modifies this
      ensures View() == SendPacket(old(View()), p, to)
    {
      if !attached {
        return;
      }
      sent := sent + [Datagram(Seal(suite, D.Serialize(p)), to)];
    }

    method BroadcastRequest()
      modifies this
      ensures View() == SendPacket(old(View()), D.DiscoveryRequest(local), broadcast)
    {
      SendDatagram(D.DiscoveryRequest(local), broadcast);
    }

    method SendText(to: nat, text: string)
      modifies this
      ensures View() == SendSignal(old(View()), to, text)
    {
      var address := if to in peers then peers[to] else broadcast;
      SendDatagram(D.DiscoveryMessage(local, to, Utf8.Encode(text)), address);
    }

    method DatagramReceived(data: bytes, from: Address)
      modifies this
      ensures View() == OnDatagram(old(View()), data, from)
    {
      var plaintext := Open(suite, data);
      if plaintext.None? {
        return;
      }
      var packet := D.Parse(plaintext.value);
      if packet.None? || packet.value.sender == local {
        return;
      }
      if packet.value.sender != 0 {
        peers := peers[packet.value.sender := from];
      }
      match packet.value {
        case DiscoveryRequest(_) =>
          if advertisement.Some? {
            SendDatagram(D.DiscoveryResponse(local, advertisement.value), from);
          }
        case DiscoveryResponse(sender, payload) =>
          hosts := hosts + [Host(sender, payload, from)];
        case DiscoveryMessage(sender, recipient, payload) =>
          if recipient != local || payload == [] {
            return;
          }
          var text := Utf8.Decode(payload);
          if text.Some? {
            signals := signals + [Signal(sender, text.value)];
          }
      }
    }
  }
}
