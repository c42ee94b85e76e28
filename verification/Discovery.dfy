// LAN discovery packets: a packed little-endian header, then a length-prefixed payload.
module Discovery {
  import opened Basics
  import opened Numerals

  const BASE_HEADER_SIZE := 20
  const RESPONSE_HEADER_SIZE := 24
  const MESSAGE_HEADER_SIZE := 32
  const RESPONSE_PAYLOAD_MAX := 1148
  const MESSAGE_PAYLOAD_MAX := 1140

  datatype Packet =
    | DiscoveryRequest(sender: nat)
    | DiscoveryResponse(sender: nat, payload: bytes)
    | DiscoveryMessage(sender: nat, recipient: nat, payload: bytes)

  // The ids fit the u64 fields; packing anything larger raises.
  predicate Packable(p: Packet) {
    p.sender <= U64_MAX && (p.DiscoveryMessage? ==> p.recipient <= U64_MAX)
  }

  function Cut(data: bytes, max: nat): bytes {
    if |data| <= max then data else data[..max]
  }

  // The packet a receiver can get: its payload cut to the cap of its type.
  function Capped(p: Packet): Packet {
    match p
    case DiscoveryRequest(_) => p
    case DiscoveryResponse(sender, payload) => DiscoveryResponse(sender, Cut(payload, RESPONSE_PAYLOAD_MAX))
    case DiscoveryMessage(sender, recipient, payload) =>
      DiscoveryMessage(sender, recipient, Cut(payload, MESSAGE_PAYLOAD_MAX))
  }

  const PAD: bytes := [0, 0, 0, 0, 0, 0, 0, 0]

  function Base(length: nat, kind: nat, sender: nat): (b: bytes)
    ensures |b| == BASE_HEADER_SIZE
  {
    LittleEndian(2, length) + LittleEndian(2, kind) + LittleEndian(8, sender) + PAD
  }

  function Serialize(p: Packet): bytes {
    match p
    case DiscoveryRequest(sender) => Base(BASE_HEADER_SIZE, 0, sender)
    case DiscoveryResponse(sender, data) =>
      var payload := Cut(data, RESPONSE_PAYLOAD_MAX);
      Base(RESPONSE_HEADER_SIZE + |payload|, 1, sender) + LittleEndian(4, |payload|) + payload
    case DiscoveryMessage(sender, recipient, data) =>
      var payload := Cut(data, MESSAGE_PAYLOAD_MAX);
      Base(MESSAGE_HEADER_SIZE + |payload|, 2, sender)
      + LittleEndian(8, recipient) + LittleEndian(4, |payload|) + payload
  }

  function Parse(data: bytes): Option<Packet> {
    if |data| < BASE_HEADER_SIZE then None
    else
      var kind := FromLittleEndian(data[2..4]);
      var sender := FromLittleEndian(data[4..12]);
      if kind == 0 then Some(DiscoveryRequest(sender))
      else if kind == 1 then
        if |data| < RESPONSE_HEADER_SIZE then None
        else
          var end := RESPONSE_HEADER_SIZE + FromLittleEndian(data[20..24]);
          if |data| < end then None
          else Some(DiscoveryResponse(sender, data[RESPONSE_HEADER_SIZE..end]))
      else if kind == 2 then
        if |data| < MESSAGE_HEADER_SIZE then None
        else
          var recipient := FromLittleEndian(data[20..28]);
          var end := MESSAGE_HEADER_SIZE + FromLittleEndian(data[28..32]);
          if |data| < end then None
          else Some(DiscoveryMessage(sender, recipient, data[MESSAGE_HEADER_SIZE..end]))
      else None
  }

  lemma SlicesOfParts(a: bytes, b: bytes, c: bytes, d: bytes, rest: bytes)
    requires |a| == 2 && |b| == 2 && |c| == 8 && |d| == 8
    ensures var whole := a + b + c + d + rest;
            whole[0..2] == a && whole[2..4] == b && whole[4..12] == c && whole[12..20] == d
  {
  }

  lemma BaseFields(length: nat, kind: nat, sender: nat, rest: bytes)
    requires length < 0x1_0000 && kind < 0x1_0000 && sender <= U64_MAX
    ensures var b := Base(length, kind, sender) + rest;
            && FromLittleEndian(b[0..2]) == length && FromLittleEndian(b[2..4]) == kind
            && FromLittleEndian(b[4..12]) == sender && b[12..20] == PAD
  {
    Pow256Values();
    LittleEndianRoundTrip(2, length);
    LittleEndianRoundTrip(2, kind);
    LittleEndianRoundTrip(8, sender);
    SlicesOfParts(LittleEndian(2, length), LittleEndian(2, kind), LittleEndian(8, sender), PAD, rest);
  }

  // Once a packet is accepted, trailing bytes do not change what is read.
  lemma TrailingIgnored(data: bytes, tail: bytes)
    requires Parse(data).Some?
    ensures Parse(data + tail) == Parse(data)
  {
    var d := data + tail;
    assert d[2..4] == data[2..4] && d[4..12] == data[4..12];
    if Parse(data).value.DiscoveryResponse? {
      assert d[20..24] == data[20..24];
      var end := RESPONSE_HEADER_SIZE + FromLittleEndian(data[20..24]);
      assert d[RESPONSE_HEADER_SIZE..end] == data[RESPONSE_HEADER_SIZE..end];
    } else if Parse(data).value.DiscoveryMessage? {
      assert d[20..28] == data[20..28] && d[28..32] == data[28..32];
      var end := MESSAGE_HEADER_SIZE + FromLittleEndian(data[28..32]);
      assert d[MESSAGE_HEADER_SIZE..end] == data[MESSAGE_HEADER_SIZE..end];
    }
  }

  lemma RequestRoundTrip(sender: nat)
    requires sender <= U64_MAX
    ensures Parse(Serialize(DiscoveryRequest(sender))) == Some(DiscoveryRequest(sender))
    ensures FromLittleEndian(Serialize(DiscoveryRequest(sender))[0..2]) == BASE_HEADER_SIZE
  {
    var d := Serialize(DiscoveryRequest(sender));
    BaseFields(BASE_HEADER_SIZE, 0, sender, []);
    assert d + [] == d;
  }

  lemma ResponseRoundTrip(sender: nat, payload: bytes)
    requires sender <= U64_MAX && |payload| <= RESPONSE_PAYLOAD_MAX
    ensures Parse(Serialize(DiscoveryResponse(sender, payload))) == Some(DiscoveryResponse(sender, payload))
    ensures FromLittleEndian(Serialize(DiscoveryResponse(sender, payload))[0..2]) == RESPONSE_HEADER_SIZE + |payload|
  {
    var d := Serialize(DiscoveryResponse(sender, payload));
    var length := LittleEndian(4, |payload|);
    BaseFields(RESPONSE_HEADER_SIZE + |payload|, 1, sender, length + payload);
    assert d == Base(RESPONSE_HEADER_SIZE + |payload|, 1, sender) + (length + payload);
    assert FromLittleEndian(length) == |payload| by {
      Pow256Values();
      LittleEndianRoundTrip(4, |payload|);
    }
    assert d[20..24] == length;
    assert d[24..24 + |payload|] == payload;
  }

  lemma MessageRoundTrip(sender: nat, recipient: nat, payload: bytes)
    requires sender <= U64_MAX && recipient <= U64_MAX && |payload| <= MESSAGE_PAYLOAD_MAX
    ensures Parse(Serialize(DiscoveryMessage(sender, recipient, payload)))
            == Some(DiscoveryMessage(sender, recipient, payload))
    ensures FromLittleEndian(Serialize(DiscoveryMessage(sender, recipient, payload))[0..2])
            == MESSAGE_HEADER_SIZE + |payload|
  {
    var d := Serialize(DiscoveryMessage(sender, recipient, payload));
    var to := LittleEndian(8, recipient);
    var length := LittleEndian(4, |payload|);
    BaseFields(MESSAGE_HEADER_SIZE + |payload|, 2, sender, to + length + payload);
    assert d == Base(MESSAGE_HEADER_SIZE + |payload|, 2, sender) + (to + length + payload);
    assert FromLittleEndian(to) == recipient && FromLittleEndian(length) == |payload| by {
      Pow256Values();
      LittleEndianRoundTrip(8, recipient);
      LittleEndianRoundTrip(4, |payload|);
    }
    assert d[20..28] == to;
    assert d[28..32] == length;
    assert d[32..32 + |payload|] == payload;
  }

  // Parsing a serialized packet gives it back with its payload cut to the cap, and the
  // PacketLength field is the byte length.
  lemma RoundTrip(p: Packet)
    requires Packable(p)
    ensures Parse(Serialize(p)) == Some(Capped(p))
    ensures FromLittleEndian(Serialize(p)[..2]) == |Serialize(p)| == Size(Capped(p)) <= 1172
  {
    assert Serialize(p) == Serialize(Capped(p));
    assert Serialize(p)[..2] == Serialize(p)[0..2];
    match Capped(p) {
      case DiscoveryRequest(sender) => RequestRoundTrip(sender);
      case DiscoveryResponse(sender, payload) => ResponseRoundTrip(sender, payload);
      case DiscoveryMessage(sender, recipient, payload) => MessageRoundTrip(sender, recipient, payload);
    }
  }

  function Size(p: Packet): nat {
    match p
    case DiscoveryRequest(_) => BASE_HEADER_SIZE
    case DiscoveryResponse(_, payload) => RESPONSE_HEADER_SIZE + |payload|
    case DiscoveryMessage(_, _, payload) => MESSAGE_HEADER_SIZE + |payload|
  }

  // What the lenient parser does not check: the length field, the pad, the cap and trailing bytes.
  predicate Canonical(data: bytes)
    requires Parse(data).Some?
  {
    var p := Parse(data).value;
    && FromLittleEndian(data[..2]) == |data| == Size(p)
    && data[12..20] == PAD
    && Capped(p) == p
  }

  lemma BaseRejoins(data: bytes, kind: nat)
    requires |data| >= BASE_HEADER_SIZE && FromLittleEndian(data[2..4]) == kind && data[12..20] == PAD
    ensures data == Base(FromLittleEndian(data[..2]), kind, FromLittleEndian(data[4..12])) + data[20..]
  {
    LittleEndianOfValue(data[..2]);
    LittleEndianOfValue(data[2..4]);
    LittleEndianOfValue(data[4..12]);
    assert data == data[..2] + data[2..4] + data[4..12] + data[12..20] + data[20..];
  }

  lemma ParsedIsPackable(data: bytes)
    requires Parse(data).Some?
    ensures Packable(Parse(data).value)
  {
    Pow256Values();
    LittleEndianOfValue(data[4..12]);
    if Parse(data).value.DiscoveryMessage? {
      LittleEndianOfValue(data[20..28]);
    }
  }

  lemma FieldRejoins(field: bytes, width: nat)
    requires |field| == width
    ensures LittleEndian(width, FromLittleEndian(field)) == field
  {
    LittleEndianOfValue(field);
  }

  lemma CanonicalResponse(data: bytes)
    requires Parse(data).Some? && Parse(data).value.DiscoveryResponse? && Canonical(data)
    ensures Serialize(Parse(data).value) == data
  {
    var payload := Parse(data).value.payload;
    var length := data[20..24];
    BaseRejoins(data, 1);
    FieldRejoins(length, 4);
    assert FromLittleEndian(length) == |payload|;
    assert data[20..] == length + payload;
  }

  lemma MessageRejoins(data: bytes, n: nat)
    requires |data| == MESSAGE_HEADER_SIZE + n
    ensures data[20..] == data[20..28] + data[28..32] + data[32..32 + n]
  {
  }

  lemma CanonicalMessage(data: bytes)
    requires Parse(data).Some? && Parse(data).value.DiscoveryMessage? && Canonical(data)
    ensures Serialize(Parse(data).value) == data
  {
    BaseRejoins(data, 2);
    FieldRejoins(data[20..28], 8);
    FieldRejoins(data[28..32], 4);
    MessageRejoins(data, FromLittleEndian(data[28..32]));
  }

  // An accepted packet is the serialization of what was read exactly when it is canonical.
  lemma ReserializeExact(data: bytes)
    requires Parse(data).Some?
    ensures Serialize(Parse(data).value) == data <==> Canonical(data)
  {
    var p := Parse(data).value;
    if Serialize(p) == data {
      ParsedIsPackable(data);
      RoundTrip(p);
    } else if Canonical(data) {
      match p {
        case DiscoveryRequest(_) => BaseRejoins(data, 0);
        case DiscoveryResponse(_, _) => CanonicalResponse(data);
        case DiscoveryMessage(_, _, _) => CanonicalMessage(data);
      }
    }
  }

  // ---- the layout of the bytes ----

  function Kind(p: Packet): nat {
    match p
    case DiscoveryRequest(_) => 0
    case DiscoveryResponse(_, _) => 1
    case DiscoveryMessage(_, _, _) => 2
  }

  // The fields every packet starts with: type at 2, sender at 4, the pad at 12.
  predicate Header(data: bytes, p: Packet) {
    && |data| >= 20
    && FromLittleEndian(data[2..4]) == Kind(p) && FromLittleEndian(data[4..12]) == p.sender
  }

  // And those after them: a length at 20 and a payload at 24, or a recipient at 20, a length at
  // 28 and a payload at 32.
  predicate Fields(data: bytes, p: Packet)
    requires |data| >= 20
  {
    match p
    case DiscoveryRequest(_) => true
    case DiscoveryResponse(_, payload) =>
      && |data| >= 24 + |payload| && FromLittleEndian(data[20..24]) == |payload|
      && data[24..24 + |payload|] == payload
    case DiscoveryMessage(_, recipient, payload) =>
      && |data| >= 32 + |payload| && FromLittleEndian(data[20..28]) == recipient
      && FromLittleEndian(data[28..32]) == |payload| && data[32..32 + |payload|] == payload
  }

  // What is accepted, and as what: exactly the datagrams with these fields, whatever their length
  // field and pad hold and whatever follows.
  lemma AcceptedIffLaidOut(data: bytes, p: Packet)
    ensures Parse(data) == Some(p) <==> Header(data, p) && Fields(data, p)
  {
  }

  lemma BasePad(length: nat, kind: nat, sender: nat)
    ensures Base(length, kind, sender)[12..20] == [0, 0, 0, 0, 0, 0, 0, 0]
  {
    var base := Base(length, kind, sender);
    SlicesOfParts(LittleEndian(2, length), LittleEndian(2, kind), LittleEndian(8, sender), PAD, []);
    assert base + [] == base;
  }

  lemma PadOfPrefix(base: bytes, data: bytes)
    requires |base| == 20 && base <= data
    ensures data[12..20] == base[12..20]
  {
  }

  // What is sent is laid out so, its length first and its pad zero, and nothing follows.
  lemma SerializedLayout(p: Packet)
    requires Packable(p)
    ensures var data := Serialize(p);
            && Header(data, Capped(p)) && Fields(data, Capped(p))
            && FromLittleEndian(data[..2]) == |data| == Size(Capped(p))
            && data[12..20] == [0, 0, 0, 0, 0, 0, 0, 0]
  {
    RoundTrip(p);
    AcceptedIffLaidOut(Serialize(p), Capped(p));
    SentPad(p);
  }

  function LengthField(p: Packet): nat { Size(Capped(p)) }

  lemma StartsWithBase(p: Packet)
    ensures Base(LengthField(p), Kind(p), p.sender) <= Serialize(p)
  {
  }

  lemma SentPad(p: Packet)
    ensures |Serialize(p)| >= 20 && Serialize(p)[12..20] == [0, 0, 0, 0, 0, 0, 0, 0]
  {
    StartsWithBase(p);
    BasePad(LengthField(p), Kind(p), p.sender);
    PadOfPrefix(Base(LengthField(p), Kind(p), p.sender), Serialize(p));
  }
}
