/** The real-time fan-out: every frame goes, unchanged, to every client whose socket is OPEN. */
module Broadcast {

  /** The `ws` socket states. */
  datatype ReadyState = Connecting | Open | Closing | Closed

  datatype Client = Client(id: nat, state: ReadyState)

  /** One `client.send(message)`. */
  datatype Delivery = Delivery(clientId: nat, payload: string)

  /** The sends one broadcast of `msg` makes, in client order. */
  function Deliveries(clients: seq<Client>, msg: string): (ds: seq<Delivery>)
    ensures |ds| <= |clients|
    decreases |clients|
  {
    if clients == [] then []
    else
      (if clients[0].state == Open then [Delivery(clients[0].id, msg)] else [])
      + Deliveries(clients[1..], msg)
  }

  /**
   * A broadcast delivers `msg` verbatim, and exactly to the OPEN clients: a
   * delivery goes to a client iff that client is OPEN.
   */
  lemma {:induction false} DeliveriesExact(clients: seq<Client>, msg: string)
    ensures forall d :: d in Deliveries(clients, msg) ==> d.payload == msg
    ensures forall c :: c in clients && c.state == Open ==> Delivery(c.id, msg) in Deliveries(clients, msg)
    ensures forall d :: d in Deliveries(clients, msg) ==> Client(d.clientId, Open) in clients
    decreases |clients|
  {
    if clients != [] {
      DeliveriesExact(clients[1..], msg);
      assert forall c :: c in clients ==> c == clients[0] || c in clients[1..];
    }
  }

  /** With distinct client ids, each OPEN client receives the frame exactly once. */
  lemma {:induction false} DeliveriesOncePerClient(clients: seq<Client>, msg: string, c: Client)
    requires forall i, j :: 0 <= i < j < |clients| ==> clients[i].id != clients[j].id
    requires c in clients
    ensures multiset(Deliveries(clients, msg))[Delivery(c.id, msg)] == if c.state == Open then 1 else 0
    decreases |clients|
  {
    if clients[0] == c {
      DeliveriesExact(clients[1..], msg);
      assert Delivery(c.id, msg) !in Deliveries(clients[1..], msg);
    } else {
      DeliveriesOncePerClient(clients[1..], msg, c);
      assert c in clients[1..];
      if clients[0].state == Open {
        assert clients[0].id != c.id by {
          var k :| 0 <= k < |clients| && clients[k] == c;
        }
      }
    }
  }

  /** `wss.clients` and what has been sent to them. */
  class Hub {
    var clients: seq<Client>
    var sent: seq<Delivery>

    constructor (clients: seq<Client>)
      ensures this.clients == clients && sent == []
    {
      this.clients := clients;
      sent := [];
    }

    /** `broadcast(message)`: send to each client in turn, skipping those that are not OPEN. */
    method Broadcast(msg: string)
      modifies this`sent
      ensures sent == old(sent) + Deliveries(clients, msg)
    {
      for i := 0 to |clients|
        invariant old(sent) + Deliveries(clients, msg) == sent + Deliveries(clients[i..], msg)
      {
        assert clients[i..][1..] == clients[i + 1..];
        if clients[i].state == Open {
          sent := sent + [Delivery(clients[i].id, msg)];
        }
      }
    }
  }
}
