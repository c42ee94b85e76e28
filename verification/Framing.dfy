// Application packet framing: a one-byte countdown header per fragment, reassembly on the
// reliable channel, and a FIFO of received packets with partial reads.
module Framing {
  import opened Basics

  const FRAGMENT_SIZE := 0x3FFFF
  const MAX_PACKET_SIZE := 0x3FBFF01
  // The SCTP message limit the SDP advertises.
  const MAX_MESSAGE_SIZE := 262144

  datatype SendType = Unreliable | Reliable

  // ---- sending ----

  // Whether push accepts the packet.
  predicate Accepts(data: bytes, kind: SendType) {
    |data| <= FRAGMENT_SIZE || (|data| <= MAX_PACKET_SIZE && kind == Reliable)
  }

  function FragmentCount(size: nat): (n: nat)
    ensures size <= MAX_PACKET_SIZE ==> 1 <= n <= 255
  {
    if size <= FRAGMENT_SIZE then 1 else (size - 1) / FRAGMENT_SIZE + 1
  }

  function Frame(header: byte, payload: bytes): bytes { [header] + payload }

  // data[lo:hi], clamped to the data as slices are.
  function Slice(data: bytes, lo: nat, hi: nat): bytes
    requires lo <= hi
  {
    if |data| <= lo then [] else if |data| <= hi then data[lo..] else data[lo..hi]
  }

  function From(data: bytes, lo: nat): bytes { if |data| <= lo then [] else data[lo..] }

  // The last `count` fragments of a packet, carrying its bytes from `offset` on.
  function Countdown(data: bytes, offset: nat, count: nat): seq<bytes>
    requires count <= 256
    decreases count
  {
    if count == 0 then []
    else [Frame(count - 1, Slice(data, offset, offset + FRAGMENT_SIZE))]
         + Countdown(data, offset + FRAGMENT_SIZE, count - 1)
  }

  lemma ChunkThenRest(data: bytes, offset: nat)
    ensures From(data, offset) == Slice(data, offset, offset + FRAGMENT_SIZE) + From(data, offset + FRAGMENT_SIZE)
  {
  }

  lemma CountBound(data: bytes, kind: SendType)
    requires Accepts(data, kind)
    ensures 1 <= FragmentCount(|data|) <= 255
    ensures FragmentCount(|data|) > 1 <==> |data| > FRAGMENT_SIZE
    ensures |data| <= FragmentCount(|data|) * FRAGMENT_SIZE
    ensures |data| > FRAGMENT_SIZE ==> (FragmentCount(|data|) - 1) * FRAGMENT_SIZE < |data|
  {
  }

  // The fragments of an accepted packet, in sending order.
  function Fragments(data: bytes): seq<bytes>
    requires Accepts(data, Reliable)
  {
    Countdown(data, 0, FragmentCount(|data|))
  }

  // The payloads of some fragments, joined.
  function Carried(fragments: seq<bytes>): bytes {
    if fragments == [] then [] else Slice(fragments[0], 1, |fragments[0]| + 1) + Carried(fragments[1..])
  }

  // Every fragment counts the ones after it, carries at most FRAGMENT_SIZE bytes and, in a
  // packet of several, at least one.
  lemma {:induction false} CountdownShape(data: bytes, offset: nat, count: nat)
    requires count <= 256
    requires count > 1 ==> offset + (count - 1) * FRAGMENT_SIZE < |data|
    ensures var fs := Countdown(data, offset, count);
            && |fs| == count
            && (forall i :: 0 <= i < count ==> 1 <= |fs[i]| <= 1 + FRAGMENT_SIZE && fs[i][0] == count - 1 - i)
            && (offset + (count - 1) * FRAGMENT_SIZE < |data| ==> forall i :: 0 <= i < count ==> |fs[i]| >= 2)
    decreases count
  {
    if count > 0 {
      var fs := Countdown(data, offset, count);
      var rest := Countdown(data, offset + FRAGMENT_SIZE, count - 1);
      CountdownShape(data, offset + FRAGMENT_SIZE, count - 1);
      assert fs[0] == Frame(count - 1, Slice(data, offset, offset + FRAGMENT_SIZE));
      assert forall i :: 1 <= i < count ==> fs[i] == rest[i - 1];
    }
  }

  // Together the fragments carry the data.
  lemma {:induction false} CountdownCarries(data: bytes, offset: nat, count: nat)
    requires count <= 256 && |data| <= offset + count * FRAGMENT_SIZE
    ensures Carried(Countdown(data, offset, count)) == From(data, offset)
    decreases count
  {
    if count > 0 {
      var fs := Countdown(data, offset, count);
      CountdownCarries(data, offset + FRAGMENT_SIZE, count - 1);
      ChunkThenRest(data, offset);
      assert fs[1..] == Countdown(data, offset + FRAGMENT_SIZE, count - 1);
      CarriedFirst(count - 1, Slice(data, offset, offset + FRAGMENT_SIZE));
    }
  }

  lemma CarriedFirst(header: byte, chunk: bytes)
    ensures var f := Frame(header, chunk); Slice(f, 1, |f| + 1) == chunk
  {
  }

  // A packet of several fragments has between 2 and 255 of them: the first header is at most
  // 254, so the countdown byte never overflows and 256 fragments never occur.
  lemma FragmentationShape(data: bytes)
    requires Accepts(data, Reliable)
    ensures var fs := Fragments(data); var n := |fs|;
            && 1 <= n <= 255 && n == FragmentCount(|data|) && (n >= 2 <==> |data| > FRAGMENT_SIZE)
            && (forall i :: 0 <= i < n ==> 1 <= |fs[i]| <= MAX_MESSAGE_SIZE && fs[i][0] == n - 1 - i)
            && (n > 1 ==> forall i :: 0 <= i < n ==> |fs[i]| >= 2)
            && Carried(fs) == data
  {
    CountBound(data, Reliable);
    CountdownShape(data, 0, FragmentCount(|data|));
    CountdownCarries(data, 0, FragmentCount(|data|));
  }

  // The limit is exactly 255 full fragments; one more byte would need a 256th.
  lemma MaxIsTight()
    ensures MAX_PACKET_SIZE == 255 * FRAGMENT_SIZE
    ensures FragmentCount(MAX_PACKET_SIZE) == 255 && FragmentCount(MAX_PACKET_SIZE + 1) == 256
  {
  }

  // What is accepted: up to 255 full fragments on the reliable channel, one on the unreliable.
  lemma AcceptsUpTo(data: bytes, kind: SendType)
    ensures Accepts(data, kind) <==> |data| <= (if kind == Reliable then 255 * 262143 else 262143)
  {
  }

  // Every fragment before the last is full.
  lemma {:induction false} CountdownIsFull(data: bytes, offset: nat, count: nat, i: nat)
    requires i + 1 < count <= 256 && offset + (count - 1) * FRAGMENT_SIZE < |data|
    ensures |Countdown(data, offset, count)| == count && |Countdown(data, offset, count)[i]| == MAX_MESSAGE_SIZE
    decreases count
  {
    CountdownShape(data, offset, count);
    if i > 0 {
      CountdownIsFull(data, offset + FRAGMENT_SIZE, count - 1, i - 1);
    }
  }

  lemma FragmentsAreFull(data: bytes, i: nat)
    requires Accepts(data, Reliable) && i + 1 < |Fragments(data)|
    ensures |Fragments(data)[i]| == MAX_MESSAGE_SIZE
  {
    FragmentationShape(data);
    CountBound(data, Reliable);
    CountdownIsFull(data, 0, FragmentCount(|data|), i);
  }

  // ---- reassembly ----

  datatype Reassembly = Reassembly(buffer: bytes, packets: seq<bytes>)

  // One message on the reliable channel.
  function Receive(r: Reassembly, message: bytes): Reassembly {
    if message == [] then r
    else if message[0] == 0 then Reassembly([], r.packets + [r.buffer + message[1..]])
    else Reassembly(r.buffer + message[1..], r.packets)
  }

  function ReceiveAll(r: Reassembly, messages: seq<bytes>): Reassembly
    decreases |messages|
  {
    if messages == [] then r else ReceiveAll(Receive(r, messages[0]), messages[1..])
  }

  lemma {:induction false} ReceiveConcat(r: Reassembly, a: seq<bytes>, b: seq<bytes>)
    ensures ReceiveAll(r, a + b) == ReceiveAll(ReceiveAll(r, a), b)
    decreases |a|
  {
    if a == [] {
      assert a + b == b;
    } else {
      assert (a + b)[0] == a[0] && (a + b)[1..] == a[1..] + b;
      ReceiveConcat(Receive(r, a[0]), a[1..], b);
    }
  }

  lemma ReceiveOne(r: Reassembly, message: bytes)
    ensures ReceiveAll(r, [message]) == Receive(r, message)
  {
    assert [message][1..] == [];
  }

  // Feeding a packet's last `count` fragments completes exactly that packet.
  lemma {:induction false} CountdownReassembles(r: Reassembly, data: bytes, offset: nat, count: nat)
    requires 0 < count <= 256 && |data| <= offset + count * FRAGMENT_SIZE
    ensures ReceiveAll(r, Countdown(data, offset, count)) == Reassembly([], r.packets + [r.buffer + From(data, offset)])
    decreases count
  {
    var chunk := Slice(data, offset, offset + FRAGMENT_SIZE);
    var rest := From(data, offset + FRAGMENT_SIZE);
    ReceiveFirst(r, Frame(count - 1, chunk), Countdown(data, offset + FRAGMENT_SIZE, count - 1));
    ReceiveFrame(r, count - 1, chunk);
    ChunkThenRest(data, offset);
    if count > 1 {
      CountdownReassembles(Reassembly(r.buffer + chunk, r.packets), data, offset + FRAGMENT_SIZE, count - 1);
      assert r.buffer + chunk + rest == r.buffer + (chunk + rest);
    } else {
      assert chunk == From(data, offset);
    }
  }

  lemma ReceiveFrame(r: Reassembly, header: byte, chunk: bytes)
    ensures Receive(r, Frame(header, chunk))
            == if header == 0 then Reassembly([], r.packets + [r.buffer + chunk])
               else Reassembly(r.buffer + chunk, r.packets)
  {
    assert Frame(header, chunk)[1..] == chunk;
  }

  lemma ReceiveFirst(r: Reassembly, first: bytes, rest: seq<bytes>)
    ensures ReceiveAll(r, [first] + rest) == ReceiveAll(Receive(r, first), rest)
  {
    assert ([first] + rest)[1..] == rest;
  }

  lemma FragmentsReassemble(r: Reassembly, data: bytes)
    requires Accepts(data, Reliable) && r.buffer == []
    ensures ReceiveAll(r, Fragments(data)) == Reassembly([], r.packets + [data])
  {
    CountBound(data, Reliable);
    CountdownReassembles(r, data, 0, FragmentCount(|data|));
    assert r.buffer + From(data, 0) == data;
  }

  // Everything the reliable channel carries for a list of accepted packets.
  function AllFragments(packets: seq<bytes>): seq<bytes>
    requires forall p :: p in packets ==> Accepts(p, Reliable)
  {
    if packets == [] then []
    else AllFragments(packets[..|packets| - 1]) + Fragments(packets[|packets| - 1])
  }

  const EMPTY := Reassembly([], [])

  lemma {:induction false} AllFragmentsReassemble(packets: seq<bytes>)
    requires forall p :: p in packets ==> Accepts(p, Reliable)
    ensures ReceiveAll(EMPTY, AllFragments(packets)) == Reassembly([], packets)
  {
    if packets != [] {
      var front, last := packets[..|packets| - 1], packets[|packets| - 1];
      AllFragmentsReassemble(front);
      ReceiveConcat(EMPTY, AllFragments(front), Fragments(last));
      FragmentsReassemble(Reassembly([], front), last);
    }
  }

  lemma {:induction false} PacketsGrow(r: Reassembly, messages: seq<bytes>)
    ensures r.packets <= ReceiveAll(r, messages).packets
    decreases |messages|
  {
    if messages != [] {
      PacketsGrow(Receive(r, messages[0]), messages[1..]);
    }
  }

  // Any prefix of the reliable stream completes a prefix of the packets.
  lemma PrefixReassembles(packets: seq<bytes>, messages: seq<bytes>)
    requires forall p :: p in packets ==> Accepts(p, Reliable)
    requires messages <= AllFragments(packets)
    ensures ReceiveAll(EMPTY, messages).packets <= packets
    ensures messages == AllFragments(packets) ==> ReceiveAll(EMPTY, messages).packets == packets
  {
    var all := AllFragments(packets);
    assert all == messages + all[|messages|..];
    ReceiveConcat(EMPTY, messages, all[|messages|..]);
    PacketsGrow(ReceiveAll(EMPTY, messages), all[|messages|..]);
    AllFragmentsReassemble(packets);
  }

  // ---- the receive queue ----

  // read(): with max_size smaller than the head packet, a prefix; otherwise the whole packet.
  predicate TakesHead(queue: seq<bytes>, max: Option<nat>)
    requires queue != []
  {
    max.None? || max.value >= |queue[0]|
  }

  function ReadData(queue: seq<bytes>, max: Option<nat>): Option<bytes> {
    if queue == [] then None
    else if TakesHead(queue, max) then Some(queue[0])
    else Some(queue[0][..max.value])
  }

  function AfterRead(queue: seq<bytes>, max: Option<nat>): seq<bytes> {
    if queue == [] then []
    else if TakesHead(queue, max) then queue[1..]
    else queue[0 := queue[0][max.value..]]
  }

  // The fragment-free view of a reader: what arrived, and the pieces read, each marked when it
  // ends its packet (which peek tells the reader beforehand).
  datatype Piece = Piece(data: bytes, ends: bool)
  datatype Reader = Reader(queue: seq<bytes>, arrived: seq<bytes>, pieces: seq<Piece>)
  datatype ReaderEvent = Arrive(packet: bytes) | Read(max: Option<nat>)

  function ReaderStep(r: Reader, e: ReaderEvent): Reader {
    match e
    case Arrive(packet) => r.(queue := r.queue + [packet], arrived := r.arrived + [packet])
    case Read(max) =>
      if r.queue == [] then r
      else Reader(AfterRead(r.queue, max), r.arrived,
                  r.pieces + [Piece(ReadData(r.queue, max).value, TakesHead(r.queue, max))])
  }

  function ReaderRun(events: seq<ReaderEvent>): Reader {
    if events == [] then Reader([], [], [])
    else ReaderStep(ReaderRun(events[..|events| - 1]), events[|events| - 1])
  }

  // Joining pieces up to each end mark.
  function Regroup(pieces: seq<Piece>): Reassembly {
    if pieces == [] then EMPTY
    else
      var r := Regroup(pieces[..|pieces| - 1]);
      var p := pieces[|pieces| - 1];
      if p.ends then Reassembly([], r.packets + [r.buffer + p.data])
      else Reassembly(r.buffer + p.data, r.packets)
  }

  // Regrouped packets, then the queue, whose head completes the packet being read.
  function Outstanding(g: Reassembly, queue: seq<bytes>): seq<bytes> {
    if queue == [] then g.packets else g.packets + [g.buffer + queue[0]] + queue[1..]
  }

  // The pieces read and the packets still queued make up the arrived packets, in order, no
  // byte lost or repeated and no piece across a packet boundary.
  lemma {:induction false} ReadsReassemble(events: seq<ReaderEvent>)
    ensures var r := ReaderRun(events); var g := Regroup(r.pieces);
            r.arrived == Outstanding(g, r.queue)
    ensures ReaderRun(events).queue == [] ==> Regroup(ReaderRun(events).pieces).buffer == []
  {
    if events != [] {
      var r := ReaderRun(events[..|events| - 1]);
      var e := events[|events| - 1];
      ReadsReassemble(events[..|events| - 1]);
      ReaderStepRegroups(r, e);
    }
  }

  lemma ReaderStepRegroups(r: Reader, e: ReaderEvent)
    requires r.arrived == Outstanding(Regroup(r.pieces), r.queue)
    requires r.queue == [] ==> Regroup(r.pieces).buffer == []
    ensures var r1 := ReaderStep(r, e);
            && r1.arrived == Outstanding(Regroup(r1.pieces), r1.queue)
            && (r1.queue == [] ==> Regroup(r1.pieces).buffer == [])
  {
    var r1 := ReaderStep(r, e);
    var g := Regroup(r.pieces);
    match e {
      case Arrive(packet) =>
        assert [] + packet == packet;
      case Read(max) =>
        if r.queue != [] {
          assert r1.pieces[..|r1.pieces| - 1] == r.pieces;
          if TakesHead(r.queue, max) {
            if r1.queue != [] {
              assert [] + r1.queue[0] == r1.queue[0];
              assert r.queue[1..] == [r1.queue[0]] + r1.queue[1..];
            }
          } else {
            assert g.buffer + r.queue[0][..max.value] + r.queue[0][max.value..] == g.buffer + r.queue[0];
          }
        }
    }
  }

  // A read gives as much of the head as asked for, and takes the packet off exactly when that is
  // all of it; no empty rest is ever left in the queue.
  lemma ReadTakesAll(queue: seq<bytes>, max: Option<nat>)
    requires queue != []
    ensures ReadData(queue, max).Some? && ReadData(queue, max).value <= queue[0]
    ensures max.None? || max.value >= |queue[0]| ==>
              ReadData(queue, max).value == queue[0] && AfterRead(queue, max) == queue[1..]
    ensures max.Some? && max.value < |queue[0]| ==>
              && |ReadData(queue, max).value| == max.value
              && |AfterRead(queue, max)| == |queue| && AfterRead(queue, max)[0] != []
              && ReadData(queue, max).value + AfterRead(queue, max)[0] == queue[0]
              && AfterRead(queue, max)[1..] == queue[1..]
  {
  }

  // So in every run an empty packet is queued only if an empty packet arrived.
  lemma {:induction false} NoEmptyRests(events: seq<ReaderEvent>)
    ensures [] in ReaderRun(events).queue ==> [] in ReaderRun(events).arrived
  {
    if events != [] {
      var r, e := ReaderRun(events[..|events| - 1]), events[|events| - 1];
      NoEmptyRests(events[..|events| - 1]);
      if e.Read? && r.queue != [] {
        ReadTakesAll(r.queue, e.max);
        assert AfterRead(r.queue, e.max) == (if |AfterRead(r.queue, e.max)| == |r.queue|
                                             then [AfterRead(r.queue, e.max)[0]] else []) + r.queue[1..];
      }
    }
  }

  function Weight(queue: seq<bytes>): nat {
    if queue == [] then 0 else |queue[0]| + 1 + Weight(queue[1..])
  }

  // Every read that asks for at least one byte gets the reader closer to an empty queue.
  lemma ReadsMakeProgress(queue: seq<bytes>, max: Option<nat>)
    requires queue != [] && max != Some(0)
    ensures Weight(AfterRead(queue, max)) < Weight(queue)
  {
    assert AfterRead(queue, max) != [] && !TakesHead(queue, max) ==> AfterRead(queue, max)[1..] == queue[1..];
  }

  // ---- the queue object ----

  lemma SingleFragment(data: bytes)
    requires |data| <= FRAGMENT_SIZE
    ensures Fragments(data) == [Frame(0, data)]
  {
    assert Countdown(data, 0, 1) == [Frame(0, data)];
  }

  lemma NextFragment(sent: seq<bytes>, data: bytes, offset: nat, count: nat)
    requires 0 < count <= 256
    ensures sent + Countdown(data, offset, count)
            == (sent + [Frame(count - 1, Slice(data, offset, offset + FRAGMENT_SIZE))])
               + Countdown(data, offset + FRAGMENT_SIZE, count - 1)
  {
  }

  lemma SentNext(before: seq<bytes>, sent: seq<bytes>, fragment: bytes)
    ensures before + sent + [fragment] == before + (sent + [fragment])
  {
  }

  class PacketQueue {
    var reassembly: bytes
    var received: seq<bytes>
    // The fragments handed to the two send callbacks, in order.
    var reliableOut: seq<bytes>
    var unreliableOut: seq<bytes>

    constructor ()
      ensures reassembly == [] && received == [] && reliableOut == [] && unreliableOut == []
    {
      reassembly, received, reliableOut, unreliableOut := [], [], [], [];
    }

    method SendFragment(header: byte, payload: bytes, kind: SendType)
      modifies this`reliableOut, this`unreliableOut
      ensures kind == Reliable ==>
                reliableOut == old(reliableOut) + [Frame(header, payload)] && unreliableOut == old(unreliableOut)
      ensures kind == Unreliable ==>
                unreliableOut == old(unreliableOut) + [Frame(header, payload)] && reliableOut == old(reliableOut)
    {
      if kind == Reliable {
        reliableOut := reliableOut + [Frame(header, payload)];
      } else {
        unreliableOut := unreliableOut + [Frame(header, payload)];
      }
    }

    method Push(data: bytes, kind: SendType) returns (ok: bool)
      modifies this`reliableOut, this`unreliableOut
      ensures ok == Accepts(data, kind)
      ensures ok && kind == Reliable ==>
                reliableOut == old(reliableOut) + Fragments(data) && unreliableOut == old(unreliableOut)
      ensures ok && kind == Unreliable ==>
                unreliableOut == old(unreliableOut) + [Frame(0, data)] && reliableOut == old(reliableOut)
      ensures !ok ==> reliableOut == old(reliableOut) && unreliableOut == old(unreliableOut)
    {
      var size := |data|;
      if size < FRAGMENT_SIZE + 1 {
        SingleFragment(data);
        SendFragment(0, data, kind);
        return true;
      }
      if size > MAX_PACKET_SIZE {
        return false;
      }
      if kind != Reliable {
        return false;
      }
      var fragments := (size - 1) / FRAGMENT_SIZE + 1;
      var offset := 0;
      ghost var sent: seq<bytes> := [];
      CountBound(data, kind);
      while fragments > 0
        invariant 0 <= fragments <= 255 && offset >= 0
        invariant reliableOut == old(reliableOut) + sent
        invariant sent + Countdown(data, offset, fragments) == Fragments(data)
        invariant unreliableOut == old(unreliableOut)
      {
        NextFragment(sent, data, offset, fragments);
        fragments := fragments - 1;
        var chunk := Slice(data, offset, offset + FRAGMENT_SIZE);
        SendFragment(fragments, chunk, Reliable);
        SentNext(old(reliableOut), sent, Frame(fragments, chunk));
        sent := sent + [Frame(fragments, chunk)];
        offset := offset + FRAGMENT_SIZE;
      }
      return true;
    }

    method OnReliableMessage(data: bytes)
      modifies this`reassembly, this`received
      ensures Reassembly(reassembly, received) == Receive(Reassembly(old(reassembly), old(received)), data)
    {
      if |data| == 0 {
        return;
      }
      var header := data[0];
      reassembly := reassembly + data[1..];
      if header == 0 {
        received := received + [reassembly];
        reassembly := [];
      }
    }

    method OnUnreliableMessage(data: bytes)
      modifies this`received
      ensures received == old(received) + (if data == [] then [] else [data[1..]])
    {
      if |data| == 0 {
        return;
      }
      received := received + [data[1..]];
    }

    method Peek() returns (size: Option<nat>)
      ensures size == if received == [] then None else Some(|received[0]|)
    {
      if received == [] {
        return None;
      }
      return Some(|received[0]|);
    }

    method Read(max: Option<nat>) returns (data: Option<bytes>)
      modifies this`received
      ensures data == ReadData(old(received), max)
      ensures received == AfterRead(old(received), max)
    {
      if received == [] {
        return None;
      }
      var head := received[0];
      if max.None? || max.value >= |head| {
        received := received[1..];
        return Some(head);
      }
      received := received[0 := head[max.value..]];
      return Some(head[..max.value]);
    }
  }
}
