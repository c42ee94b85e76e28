// The connection objects of the application and the endpoint object that feeds them, tied to the
// step functions the theorems about whole runs are about.
module Connections {
  import opened Basics
  import E = Endpoints

  class Connection {
    var recvQueue: seq<E.Item>
    var connected: E.Future
    var closedError: Option<int>
    var outcomes: seq<E.Outcome>
    ghost var enqueued: seq<bytes>
    ghost var marks: seq<E.Mark>
    ghost var settled: seq<E.Future>

    ghost function View(): E.Conn
      reads this
    {
      E.Conn(recvQueue, connected, closedError, enqueued, outcomes, marks, settled)
    }

    constructor ()
      ensures View() == E.NEW_CONN
    {
      recvQueue, connected, closedError, outcomes := [], E.Pending, None, [];
      enqueued, marks, settled := [], [], [];
    }

    method SetFuture(f: E.Future)
      modifies this`connected, this`settled
      ensures View() == E.Settle(old(View()), f)
    {
      if connected.Pending? {
        connected := f;
        settled := settled + [f];
      }
    }

    method MarkConnected()
      modifies this
      ensures View() == E.MarkConnected(old(View()))
    {
      SetFuture(E.Resolved);
      marks := marks + [E.Opened];
    }

    method MarkClosed(error: int)
      modifies this
      ensures View() == E.MarkClosed(old(View()), error)
    {
      closedError := Some(error);
      SetFuture(E.Failed(error));
      recvQueue := recvQueue + [E.Sentinel];
      marks := marks + [E.Closed(error)];
    }

    // The connect timeout cancels a future nobody has settled.
    method Expire()
      modifies this
      ensures View() == E.MarkExpired(old(View()))
    {
      if connected.Pending? {
        SetFuture(E.Cancelled);
        marks := marks + [E.Expired];
      }
    }

    method Enqueue(data: bytes)
      modifies this
      ensures View() == E.Enqueue(old(View()), data)
    {
      recvQueue := recvQueue + [E.Packet(data)];
      enqueued := enqueued + [data];
    }

    method Recv() returns (outcome: E.Outcome)
      requires recvQueue != []
      modifies this
      ensures View() == E.Recv(old(View()))
      ensures outcomes == old(outcomes) + [outcome]
    {
      var item := recvQueue[0];
      recvQueue := recvQueue[1..];
      match item {
        case Sentinel =>
          recvQueue := recvQueue + [E.Sentinel];
          outcome := E.Raised(if closedError.Some? then closedError.value else E.NO_ERROR);
        case Packet(data) =>
          outcome := E.Got(data);
      }
      outcomes := outcomes + [outcome];
    }
  }

  ghost predicate Distinct(all: seq<Connection>) {
    forall i, j :: 0 <= i < j < |all| ==> all[i] != all[j]
  }

  ghost function Views(all: seq<Connection>): seq<E.Conn>
    reads all
  {
    seq(|all|, i requires 0 <= i < |all| reads all => all[i].View())
  }

  class Endpoint {
    // Every connection, in creation order, and the open ones by connection id.
    var all: seq<Connection>
    var conns: map<nat, nat>
    var pendingPackets: map<nat, seq<bytes>>
    var incoming: seq<nat>
    // The connections a server's accept loop has started a handler for.
    var handled: seq<nat>
    ghost var history: seq<E.Event>

    ghost function View(): E.Endpoint
      reads this, all
    {
      E.Endpoint(conns, pendingPackets, incoming, Views(all), handled)
    }

    ghost predicate Consistent()
      reads this, all
    {
      Distinct(all) && E.Mapped(View())
    }

    // The object is where the events it has handled lead the endpoint: whatever is proved of
    // every run holds of it and of its connections.
    ghost predicate Valid()
      reads this, all
    {
      Distinct(all) && View() == E.Run(history)
    }

    constructor ()
      ensures Valid() && history == [] && all == []
    {
      all, conns, pendingPackets, incoming, handled, history := [], map[], map[], [], [], [];
    }

    ghost method Record(event: E.Event, before: E.Endpoint)
      requires Distinct(all) && before == E.Run(history) && View() == E.Step(before, event)
      modifies this`history
      ensures Valid() && history == old(history) + [event] && View() == old(View())
    {
      assert (history + [event])[..|history|] == history;
      history := history + [event];
    }

    // connect(), once the session exists.
    method Register(id: nat)
      requires Valid()
      modifies this
      ensures Valid() && history == old(history) + [E.Register(id)]
      ensures View() == E.Step(old(View()), E.Register(id))
    {
      ghost var before := View();
      AddConnection(id);
      Record(E.Register(id), before);
    }

    method AddConnection(id: nat)
      requires Consistent()
      modifies this`all, this`conns, this`pendingPackets
      ensures Consistent() && View() == E.Registered(old(View()), id)
      ensures |all| == |old(all)| + 1 && all[..|old(all)|] == old(all) && fresh(all[|old(all)|])
    {
      var conn := new Connection();
      conns := conns[id := |all|];
      var packets := if id in pendingPackets then pendingPackets[id] else [];
      pendingPackets := pendingPackets - {id};
      for i := 0 to |packets|
        invariant conn.View() == E.EnqueueAll(E.NEW_CONN, packets[..i])
        invariant all == old(all) && Views(all) == old(Views(all)) && incoming == old(incoming) && handled == old(handled)
        invariant conns == old(conns)[id := |all|] && pendingPackets == old(pendingPackets) - {id}
      {
        conn.Enqueue(packets[i]);
        assert packets[..i + 1][..i] == packets[..i];
      }
      assert packets[..|packets|] == packets;
      all := all + [conn];
      assert Views(all) == old(Views(all)) + [E.EnqueueAll(E.NEW_CONN, packets)];
    }

    method OnSessionOpen(id: nat)
      requires Valid()
      modifies this, all
      ensures Valid() && history == old(history) + [E.SessionOpen(id)]
      ensures View() == E.Step(old(View()), E.SessionOpen(id))
      ensures incoming == old(incoming) + (if id in old(conns) then [] else [|old(all)|])
    {
      ghost var before := View();
      if id !in conns {
        AddConnection(id);
        incoming := incoming + [|all| - 1];
      }
      assert View() == E.Opening(before, id);
      MarkOpen(id);
      Record(E.SessionOpen(id), before);
    }

    method MarkOpen(id: nat)
      requires Consistent() && id in conns
      modifies all
      ensures Distinct(all)
      ensures View() == E.With(old(View()), conns[id], E.MarkConnected(old(View()).all[conns[id]]))
    {
      var who := conns[id];
      all[who].MarkConnected();
      assert Views(all) == old(Views(all))[who := E.MarkConnected(old(all[who].View()))];
    }

    method OnSessionClose(id: nat, error: int)
      requires Valid()
      modifies this`conns, this`history, all
      ensures Valid() && history == old(history) + [E.SessionClose(id, error)]
      ensures View() == E.Step(old(View()), E.SessionClose(id, error))
    {
      ghost var before := View();
      if id in conns {
        var who := conns[id];
        conns := conns - {id};
        all[who].MarkClosed(error);
        assert Views(all) == old(Views(all))[who := E.MarkClosed(old(all[who].View()), error)];
      }
      Record(E.SessionClose(id, error), before);
    }

    method OnPacket(id: nat, data: bytes)
      requires Valid()
      modifies this`pendingPackets, this`history, all
      ensures Valid() && history == old(history) + [E.PacketIn(id, data)]
      ensures View() == E.Step(old(View()), E.PacketIn(id, data))
    {
      ghost var before := View();
      if id in conns {
        var who := conns[id];
        all[who].Enqueue(data);
        assert Views(all) == old(Views(all))[who := E.Enqueue(old(all[who].View()), data)];
      } else {
        if id !in pendingPackets {
          pendingPackets := pendingPackets[id := []];
        }
        if |pendingPackets[id]| < E.MAX_PENDING_PACKETS {
          pendingPackets := pendingPackets[id := pendingPackets[id] + [data]];
        }
      }
      Record(E.PacketIn(id, data), before);
    }

    // recv() and the connect timeout of one of its connections.
    method Receive(who: nat) returns (outcome: E.Outcome)
      requires Valid() && who < |all| && all[who].recvQueue != []
      modifies this`history, all
      ensures Valid() && history == old(history) + [E.Receive(who)]
      ensures View() == E.Step(old(View()), E.Receive(who))
      ensures all[who].outcomes == old(all[who].outcomes) + [outcome]
    {
      ghost var before := View();
      outcome := all[who].Recv();
      assert Views(all) == old(Views(all))[who := E.Recv(old(all[who].View()))];
      Record(E.Receive(who), before);
    }

    method Expire(who: nat)
      requires Valid() && who < |all|
      modifies this`history, all
      ensures Valid() && history == old(history) + [E.Expire(who)]
      ensures View() == E.Step(old(View()), E.Expire(who))
    {
      ghost var before := View();
      all[who].Expire();
      assert Views(all) == old(Views(all))[who := E.MarkExpired(old(all[who].View()))];
      Record(E.Expire(who), before);
    }

    // A turn of the accept loop.
    method Accept() returns (who: nat)
      requires Valid() && incoming != []
      modifies this`incoming, this`handled, this`history
      ensures Valid() && history == old(history) + [E.Accept]
      ensures View() == E.Step(old(View()), E.Accept)
      ensures handled == old(handled) + [who]
    {
      ghost var before := View();
      who := incoming[0];
      incoming := incoming[1..];
      handled := handled + [who];
      Record(E.Accept, before);
    }

    // Handled and waiting connections together are those that arrived, in order, each connected.
    lemma ServesWhatArrived()
      requires Valid()
      ensures handled + incoming == E.Arrived(history) && |handled| == E.Turns(history)
      ensures forall who :: who in handled + incoming ==> who < |all| && all[who].connected == E.Resolved
    {
      E.AcceptedInOrder(history);
      E.RunKeeps(history);
      forall who | who in E.Arrived(history)
        ensures who < |all| && all[who].connected == E.Resolved
      {
        assert E.ConnOk(View().all[who]) && View().all[who] == all[who].View();
      }
    }

    // So every queue of the endpoint is packets, then one sentinel once its connection is closed.
    lemma QueuesAreSafe(who: nat)
      requires Valid() && who < |all|
      ensures E.QueueOk(all[who].View())
    {
      E.ReceiveQueueIsSafe(history, who);
      assert View().all[who] == all[who].View();
    }
  }
}
