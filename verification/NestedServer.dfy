/** The nested request server (UDPServer in extra/server.cpp): a client's request makes the server ask every
    peer, and the first peer to reply lets it answer the client.  Packets may be lost, repeated or reordered. */
module NestedServer {
  import opened Wrappers

  const SEQ_LIMIT := 1_000_000

  // Where a packet goes: to a peer by its id, or to a client's address.
  datatype Destination = Peer(id: nat) | ClientAt(addr: nat)

  datatype Message = Nested(data: nat) | NestedReply(data: nat) | ClientReply(data: nat)

  datatype Packet = Packet(from: nat, to: Destination, msg: Message)

  // m_seq, m_seq_finished and m_pending_client.
  datatype ServerState = ServerState(next: nat, finished: seq<bool>, pending: map<nat, nat>)

  datatype Outcome = Outcome(state: ServerState, sent: seq<Packet>)

  const INITIAL := ServerState(0, seq(SEQ_LIMIT, _ => false), map[])

  // ---- The three handlers ----

  function Asks(n: nat, me: nat, k: nat): seq<Packet>
  {
    if n == 0 then []
    else Asks(n - 1, me, k) + if n - 1 == me then [] else [Packet(me, Peer(n - 1), Nested(k))]
  }

  function ClientStep(n: nat, me: nat, s: ServerState, client: nat): Outcome
  {
    Outcome(s.(next := s.next + 1, pending := s.pending[s.next := client]), Asks(n, me, s.next))
  }

  function NestedStep(me: nat, from: nat, k: nat): seq<Packet>
  {
    [Packet(me, Peer(from), NestedReply(k))]
  }

  // None: the flag read is outside the vector, or the client looked up is not there.
  function ReplyStep(me: nat, s: ServerState, k: nat): Option<Outcome>
  {
    if k >= |s.finished| then None
    else if s.finished[k] then Some(Outcome(s, []))
    else if k !in s.pending then None
    else Some(Outcome(s.(finished := s.finished[k := true], pending := s.pending - {k}),
                      [Packet(me, ClientAt(s.pending[k]), ClientReply(k))]))
  }

  class UDPServer {
    const n: nat
    const me: nat
    var seqNumber: nat
    const seqFinished: array<bool>
    var pendingClient: map<nat, nat>
    var sent: seq<Packet>

    ghost function State(): ServerState
      reads this, seqFinished
    {
      ServerState(seqNumber, seqFinished[..], pendingClient)
    }

    constructor (n: nat, me: nat)
      ensures State() == INITIAL && sent == [] && fresh(seqFinished) && seqFinished.Length == 1_000_000
      ensures this.n == n && this.me == me
    {
      this.n, this.me := n, me;
      seqNumber, pendingClient, sent := 0, map[], [];
      seqFinished := new bool[SEQ_LIMIT](_ => false);
      new;
      assert seqFinished[..] == INITIAL.finished;
    }

    method OnClientMsg(client: nat)
      modifies this`seqNumber, this`pendingClient, this`sent
      ensures var r := ClientStep(n, me, old(State()), client);
              State() == r.state && sent == old(sent) + r.sent
    {
      pendingClient := pendingClient[seqNumber := client];
      for id := 0 to n
        invariant seqNumber == old(seqNumber) && pendingClient == old(pendingClient)[seqNumber := client]
        invariant seqFinished[..] == old(seqFinished[..])
        invariant sent == old(sent) + Asks(id, me, seqNumber)
      {
        if id != me {
          sent := sent + [Packet(me, Peer(id), Nested(seqNumber))];
        }
      }
      seqNumber := seqNumber + 1;
    }

    method OnNestedMsg(from: nat, data: nat)
      modifies this`sent
      ensures sent == old(sent) + NestedStep(me, from, data)
    {
      sent := sent + [Packet(me, Peer(from), NestedReply(data))];
    }

    method OnNestedReplyMsg(data: nat)
      requires ReplyStep(me, State(), data).Some?
      modifies this`pendingClient, this`sent, seqFinished
      ensures var r := ReplyStep(me, old(State()), data).value;
              State() == r.state && sent == old(sent) + r.sent
    {
      if !seqFinished[data] {
        seqFinished[data] := true;
        sent := sent + [Packet(me, ClientAt(pendingClient[data]), ClientReply(data))];
        pendingClient := pendingClient - {data};
      }
    }
  }

  // ---- All servers and the network ----

  // The packets that go to clients.
  function ToClients(ps: seq<Packet>): seq<Packet>
  {
    if ps == [] then []
    else
      var last := ps[|ps| - 1];
      ToClients(ps[..|ps| - 1]) + if last.to.ClientAt? then [last] else []
  }

  // A server, with the clients that asked, in order, and everything it has sent to clients, in order.
  datatype Node = Node(state: ServerState, issued: seq<nat>, answers: seq<Packet>)

  // Packets never leave the network, so that any may be lost, repeated or overtaken.
  datatype System = System(nodes: seq<Node>, network: set<Packet>, delivered: set<Packet>)

  datatype Event = Request(at: nat, client: nat) | Deliver(packet: Packet)

  function Init(n: nat): System
  {
    System(seq(n, _ => Node(INITIAL, [], [])), {}, {})
  }

  predicate Possible(sys: System, e: Event)
  {
    match e
    case Request(at, _) => at < |sys.nodes|
    case Deliver(p) => p in sys.network
  }

  function DeliverTo(sys: System, p: Packet): Option<System>
  {
    var seen := sys.(delivered := sys.delivered + {p});
    if p.to.ClientAt? || p.to.id >= |sys.nodes| then Some(seen)
    else
      var at := p.to.id;
      var node := sys.nodes[at];
      match p.msg
      case Nested(k) =>
        var sent := NestedStep(at, p.from, k);
        Some(seen.(network := sys.network + Bag(sent),
                   nodes := sys.nodes[at := node.(answers := node.answers + ToClients(sent))]))
      case NestedReply(k) =>
        (match ReplyStep(at, node.state, k)
         case None => None
         case Some(r) =>
           Some(seen.(network := sys.network + Bag(r.sent),
                      nodes := sys.nodes[at := Node(r.state, node.issued, node.answers + ToClients(r.sent))])))
      case ClientReply(_) => Some(seen)
  }

  function Bag(ps: seq<Packet>): set<Packet>
  {
    set p <- ps
  }

  function Step(sys: System, e: Event): Option<System>
    requires Possible(sys, e)
  {
    match e
    case Request(at, client) =>
      var node := sys.nodes[at];
      var r := ClientStep(|sys.nodes|, at, node.state, client);
      Some(sys.(network := sys.network + Bag(r.sent),
                nodes := sys.nodes[at := Node(r.state, node.issued + [client],
                                              node.answers + ToClients(r.sent))]))
    case Deliver(p) => DeliverTo(sys, p)
  }

  // None when a handler failed or an event was not possible.
  function Run(n: nat, events: seq<Event>): Option<System>
  {
    if events == [] then Some(Init(n))
    else match Run(n, events[..|events| - 1])
      case None => None
      case Some(sys) => if Possible(sys, events[|events| - 1]) then Step(sys, events[|events| - 1]) else None
  }

  // ---- What every run keeps ----

  predicate Done(s: ServerState, k: nat)
  {
    k < |s.finished| && s.finished[k]
  }

  // The answers to request k.
  function AnswersTo(answers: seq<Packet>, k: nat): seq<Packet>
  {
    if answers == [] then []
    else
      var last := answers[|answers| - 1];
      AnswersTo(answers[..|answers| - 1], k) + if last.msg == ClientReply(k) then [last] else []
  }

  function Answer(me: nat, node: Node, k: nat): Packet
    requires k < |node.issued|
  {
    Packet(me, ClientAt(node.issued[k]), ClientReply(k))
  }

  predicate NumberOk(me: nat, node: Node, k: nat)
  {
    && (k in node.state.pending <==> k < node.state.next && !Done(node.state, k))
    && (k in node.state.pending && k < |node.issued| ==> node.state.pending[k] == node.issued[k])
    && (Done(node.state, k) ==> k < node.state.next)
    && (k < |node.issued| ==>
          AnswersTo(node.answers, k) == if Done(node.state, k) then [Answer(me, node, k)] else [])
    && (k >= |node.issued| ==> AnswersTo(node.answers, k) == [])
  }

  ghost predicate NodeOk(me: nat, node: Node)
  {
    && |node.state.finished| == SEQ_LIMIT
    && node.state.next == |node.issued|
    && (forall k: nat :: NumberOk(me, node, k))
    && (forall p <- node.answers :: p.msg.ClientReply?)
  }

  // What a server has sent to clients is on the network.
  ghost predicate AnswersSent(sys: System, i: nat)
    requires i < |sys.nodes|
  {
    forall p <- sys.nodes[i].answers :: p in sys.network
  }

  function Issued(sys: System, i: nat): nat
  {
    if i < |sys.nodes| then |sys.nodes[i].issued| else 0
  }

  predicate PacketOk(sys: System, p: Packet)
  {
    && p.from < |sys.nodes|
    && (p.to.ClientAt? ==> p in sys.nodes[p.from].answers)
    && (p.to.Peer? ==>
          && p.to.id < |sys.nodes| && p.to.id != p.from
          && match p.msg
             case Nested(k) => k < Issued(sys, p.from)
             case NestedReply(k) => k < Issued(sys, p.to.id)
             case ClientReply(_) => false)
  }

  // A packet that arrived has had its effect.
  predicate Effect(sys: System, p: Packet)
  {
    && p in sys.network
    && (p.to.Peer? && p.to.id < |sys.nodes| ==>
          match p.msg
          case Nested(k) => Packet(p.to.id, Peer(p.from), NestedReply(k)) in sys.network
          case NestedReply(k) => Done(sys.nodes[p.to.id].state, k)
          case ClientReply(_) => true)
  }

  predicate Asked(sys: System, i: nat, j: nat, k: nat)
  {
    Packet(i, Peer(j), Nested(k)) in sys.network
  }

  ghost predicate PeerReplied(sys: System, i: nat, k: nat)
  {
    exists from: nat :: Packet(from, Peer(i), NestedReply(k)) in sys.delivered
  }

  ghost predicate Inv(sys: System)
  {
    && (forall i :: 0 <= i < |sys.nodes| ==> NodeOk(i, sys.nodes[i]) && AnswersSent(sys, i))
    && (forall p <- sys.network :: PacketOk(sys, p))
    && (forall p <- sys.delivered :: Effect(sys, p))
    && (forall i: nat, j: nat, k: nat :: i < |sys.nodes| && j < |sys.nodes| && i != j && k < Issued(sys, i) ==>
         Asked(sys, i, j, k))
    && (forall i: nat, k: nat :: i < |sys.nodes| && Done(sys.nodes[i].state, k) ==> PeerReplied(sys, i, k))
  }

  lemma {:induction false} AsksAll(n: nat, me: nat, k: nat)
    ensures forall p :: p in Asks(n, me, k)
                        <==> p.from == me && p.to.Peer? && p.to.id < n && p.to.id != me && p.msg == Nested(k)
  {
    if n == 0 {
    } else {
      AsksAll(n - 1, me, k);
    }
  }

  // Each other server is asked once, and no client is sent anything.
  lemma {:induction false} AsksOnce(n: nat, me: nat, k: nat)
    ensures |Asks(n, me, k)| == if me < n then n - 1 else n
    ensures ToClients(Asks(n, me, k)) == []
  {
    if n == 0 {
    } else {
      AsksOnce(n - 1, me, k);
      if n - 1 == me {
        assert Asks(n, me, k) == Asks(n - 1, me, k);
      } else {
        assert Asks(n, me, k) == Asks(n - 1, me, k) + [Packet(me, Peer(n - 1), Nested(k))];
        ToClientsMore(Asks(n - 1, me, k), Packet(me, Peer(n - 1), Nested(k)));
      }
    }
  }

  lemma ToClientsMore(ps: seq<Packet>, p: Packet)
    ensures ToClients(ps + [p]) == ToClients(ps) + if p.to.ClientAt? then [p] else []
  {
    assert (ps + [p])[..|ps|] == ps;
  }

  lemma OneToClients(p: Packet)
    ensures ToClients([p]) == if p.to.ClientAt? then [p] else []
  {
    assert ToClients([p][..0]) == [];
  }

  lemma AnsweredOneMore(answers: seq<Packet>, p: Packet, k: nat)
    ensures AnswersTo(answers + [p], k) == AnswersTo(answers, k) + if p.msg == ClientReply(k) then [p] else []
  {
    assert (answers + [p])[..|answers|] == answers;
  }

  lemma ClientKeepsNode(n: nat, me: nat, node: Node, client: nat)
    requires NodeOk(me, node)
    ensures NodeOk(me, Node(ClientStep(n, me, node.state, client).state, node.issued + [client], node.answers))
  {
    var node' := Node(ClientStep(n, me, node.state, client).state, node.issued + [client], node.answers);
    forall k: nat
      ensures NumberOk(me, node', k)
    {
      assert NumberOk(me, node, k);
    }
  }

  lemma RepliesGoToClients(me: nat, s: ServerState, k: nat)
    requires ReplyStep(me, s, k).Some?
    ensures ToClients(ReplyStep(me, s, k).value.sent) == ReplyStep(me, s, k).value.sent
  {
    var sent := ReplyStep(me, s, k).value.sent;
    if sent != [] {
      OneToClients(sent[0]);
      assert sent == [sent[0]];
    }
  }

  lemma ReplyKeepsNode(me: nat, node: Node, k: nat)
    requires NodeOk(me, node) && k < |node.issued|
    ensures var r := ReplyStep(me, node.state, k);
            && (r.Some? <==> k < SEQ_LIMIT)
            && (r.Some? ==>
                  && NodeOk(me, Node(r.value.state, node.issued, node.answers + r.value.sent))
                  && Done(r.value.state, k)
                  && (forall i: nat :: Done(r.value.state, i) <==> Done(node.state, i) || i == k))
  {
    assert NumberOk(me, node, k);
    if k < SEQ_LIMIT {
      var r := ReplyStep(me, node.state, k).value;
      var node' := Node(r.state, node.issued, node.answers + r.sent);
      forall i: nat
        ensures NumberOk(me, node', i)
      {
        assert NumberOk(me, node, i);
        if r.sent == [] {
          assert node'.answers == node.answers;
        } else {
          AnsweredOneMore(node.answers, r.sent[0], i);
        }
      }
    }
  }

  // The servers after one event at `at`: that one is in order, and what it newly sent to clients is on the network.
  lemma NodesStayOk(sys: System, sys': System, at: nat, node': Node, added: seq<Packet>)
    requires Inv(sys) && at < |sys.nodes| && sys'.nodes == sys.nodes[at := node'] && sys.network <= sys'.network
    requires NodeOk(at, node') && node'.answers == sys.nodes[at].answers + added
    requires forall p <- added :: p in sys'.network
    ensures forall i :: 0 <= i < |sys'.nodes| ==> NodeOk(i, sys'.nodes[i]) && AnswersSent(sys', i)
  {
    forall i | 0 <= i < |sys'.nodes|
      ensures NodeOk(i, sys'.nodes[i]) && AnswersSent(sys', i)
    {
      assert NodeOk(i, sys.nodes[i]) && AnswersSent(sys, i);
    }
  }

  // Old packets stay in order while numbers and answers are only added.
  lemma PacketStaysOk(sys: System, sys': System, p: Packet)
    requires PacketOk(sys, p) && |sys.nodes| == |sys'.nodes|
    requires forall i :: 0 <= i < |sys.nodes| ==>
               sys.nodes[i].answers <= sys'.nodes[i].answers && |sys.nodes[i].issued| <= |sys'.nodes[i].issued|
    ensures PacketOk(sys', p)
  {
  }

  lemma RequestNodes(sys: System, at: nat, client: nat)
    requires Inv(sys) && at < |sys.nodes|
    ensures var sys' := Step(sys, Request(at, client)).value;
            forall i :: 0 <= i < |sys'.nodes| ==> NodeOk(i, sys'.nodes[i]) && AnswersSent(sys', i)
  {
    var node, sys' := sys.nodes[at], Step(sys, Request(at, client)).value;
    ClientKeepsNode(|sys.nodes|, at, node, client);
    AsksOnce(|sys.nodes|, at, node.state.next);
    assert node.answers + [] == node.answers;
    NodesStayOk(sys, sys', at, sys'.nodes[at], []);
  }

  lemma RequestPackets(sys: System, at: nat, client: nat)
    requires Inv(sys) && at < |sys.nodes|
    ensures var sys' := Step(sys, Request(at, client)).value;
            forall p <- sys'.network :: PacketOk(sys', p)
  {
    var sys' := Step(sys, Request(at, client)).value;
    AsksAll(|sys.nodes|, at, sys.nodes[at].state.next);
    forall p <- sys'.network
      ensures PacketOk(sys', p)
    {
      if p in sys.network {
        PacketStaysOk(sys, sys', p);
      }
    }
  }

  lemma RequestKeeps(sys: System, at: nat, client: nat)
    requires Inv(sys) && at < |sys.nodes|
    ensures Inv(Step(sys, Request(at, client)).value)
  {
    var node := sys.nodes[at];
    var sys' := Step(sys, Request(at, client)).value;
    RequestNodes(sys, at, client);
    RequestPackets(sys, at, client);
    AsksAll(|sys.nodes|, at, node.state.next);
    forall p <- sys'.delivered
      ensures Effect(sys', p)
    {
      assert Effect(sys, p);
    }
    forall i: nat, j: nat, k: nat | i < |sys.nodes| && j < |sys.nodes| && i != j && k < Issued(sys', i)
      ensures Asked(sys', i, j, k)
    {
      if k < Issued(sys, i) {
        assert Asked(sys, i, j, k);
      }
    }
    forall i: nat, k: nat | i < |sys.nodes| && Done(sys'.nodes[i].state, k)
      ensures PeerReplied(sys', i, k)
    {
      assert PeerReplied(sys, i, k);
    }
  }

  // What delivering a packet does, if it does not fail: at most one server and what it sends are new.
  ghost predicate NodesAfter(sys: System, sys': System, p: Packet)
  {
    && (forall i :: 0 <= i < |sys'.nodes| ==> NodeOk(i, sys'.nodes[i]) && AnswersSent(sys', i))
    && |sys'.nodes| == |sys.nodes| && sys.network <= sys'.network && sys'.delivered == sys.delivered + {p}
    && forall i :: 0 <= i < |sys.nodes| ==> NodeAfter(sys.nodes[i], sys'.nodes[i], i, p)
  }

  ghost predicate NodeAfter(node: Node, node': Node, i: nat, p: Packet)
  {
    && node'.issued == node.issued && node.answers <= node'.answers
    && forall k: nat ::
         Done(node'.state, k) <==> Done(node.state, k) || (p.to == Peer(i) && p.msg == NestedReply(k))
  }

  lemma DeliverReply(sys: System, p: Packet)
    requires Inv(sys) && p in sys.network && p.to.Peer? && p.msg.NestedReply?
    ensures Step(sys, Deliver(p)).None? <==> p.msg.data >= SEQ_LIMIT
    ensures Step(sys, Deliver(p)).Some? ==> NodesAfter(sys, Step(sys, Deliver(p)).value, p)
  {
    assert PacketOk(sys, p);
    var at, node := p.to.id, sys.nodes[p.to.id];
    ReplyKeepsNode(at, node, p.msg.data);
    var r := ReplyStep(at, node.state, p.msg.data);
    if r.Some? {
      RepliesGoToClients(at, node.state, p.msg.data);
      var node' := Node(r.value.state, node.issued, node.answers + r.value.sent);
      NodesStayOk(sys, Step(sys, Deliver(p)).value, at, node', r.value.sent);
      assert NodeAfter(node, node', at, p);
    }
  }

  lemma DeliverOther(sys: System, p: Packet)
    requires Inv(sys) && p in sys.network && !(p.to.Peer? && p.msg.NestedReply?)
    ensures Step(sys, Deliver(p)).Some? && NodesAfter(sys, Step(sys, Deliver(p)).value, p)
  {
    assert PacketOk(sys, p);
    var sys' := Step(sys, Deliver(p)).value;
    if p.to.Peer? && p.msg.Nested? {
      var node := sys.nodes[p.to.id];
      OneToClients(Packet(p.to.id, Peer(p.from), NestedReply(p.msg.data)));
      assert node.answers + [] == node.answers && node.(answers := node.answers) == node;
    }
    assert sys'.nodes == sys.nodes;
    forall i | 0 <= i < |sys'.nodes|
      ensures NodeOk(i, sys'.nodes[i]) && AnswersSent(sys', i)
    {
      assert NodeOk(i, sys.nodes[i]) && AnswersSent(sys, i);
    }
  }

  lemma DeliverNodes(sys: System, p: Packet)
    requires Inv(sys) && p in sys.network
    ensures Step(sys, Deliver(p)).None? <==> p.to.Peer? && p.msg.NestedReply? && p.msg.data >= SEQ_LIMIT
    ensures Step(sys, Deliver(p)).Some? ==> NodesAfter(sys, Step(sys, Deliver(p)).value, p)
  {
    if p.to.Peer? && p.msg.NestedReply? {
      DeliverReply(sys, p);
    } else {
      DeliverOther(sys, p);
    }
  }

  lemma DeliverPackets(sys: System, p: Packet)
    requires Inv(sys) && p in sys.network && Step(sys, Deliver(p)).Some?
    ensures forall q <- Step(sys, Deliver(p)).value.network :: PacketOk(Step(sys, Deliver(p)).value, q)
    ensures Effect(Step(sys, Deliver(p)).value, p)
  {
    assert PacketOk(sys, p);
    DeliverNodes(sys, p);
    var sys' := Step(sys, Deliver(p)).value;
    forall i | 0 <= i < |sys.nodes|
      ensures sys.nodes[i].answers <= sys'.nodes[i].answers && sys.nodes[i].issued == sys'.nodes[i].issued
    {
      assert NodeAfter(sys.nodes[i], sys'.nodes[i], i, p);
    }
    if p.to.Peer? && p.msg.NestedReply? {
      ReplyKeepsNode(p.to.id, sys.nodes[p.to.id], p.msg.data);
      RepliesGoToClients(p.to.id, sys.nodes[p.to.id].state, p.msg.data);
    }
    forall q <- sys'.network
      ensures PacketOk(sys', q)
    {
      if q in sys.network {
        PacketStaysOk(sys, sys', q);
      }
    }
  }

  /** A delivered packet breaks nothing, and the one delivery that fails is a reply numbered beyond the
      1,000,000 flags. */
  lemma DeliverKeeps(sys: System, p: Packet)
    requires Inv(sys) && p in sys.network
    ensures Step(sys, Deliver(p)).None? <==> p.to.Peer? && p.msg.NestedReply? && p.msg.data >= 1_000_000
    ensures Step(sys, Deliver(p)).Some? ==> Inv(Step(sys, Deliver(p)).value)
  {
    DeliverNodes(sys, p);
    if Step(sys, Deliver(p)).Some? {
      var sys' := Step(sys, Deliver(p)).value;
      DeliverPackets(sys, p);
      assert forall i :: 0 <= i < |sys.nodes| ==> NodeAfter(sys.nodes[i], sys'.nodes[i], i, p);
      forall q <- sys'.delivered
        ensures Effect(sys', q)
      {
        if q != p {
          assert Effect(sys, q);
        }
      }
      forall i: nat, j: nat, k: nat | i < |sys.nodes| && j < |sys.nodes| && i != j && k < Issued(sys', i)
        ensures Asked(sys', i, j, k)
      {
        assert Asked(sys, i, j, k);
      }
      forall i: nat, k: nat | i < |sys.nodes| && Done(sys'.nodes[i].state, k)
        ensures PeerReplied(sys', i, k)
      {
        if Done(sys.nodes[i].state, k) {
          assert PeerReplied(sys, i, k);
        } else {
          assert p == Packet(p.from, Peer(i), NestedReply(k));
        }
      }
    }
  }

  lemma InitInv(n: nat)
    ensures Inv(Init(n))
  {
    forall i: nat | i < n
      ensures NodeOk(i, Init(n).nodes[i])
    {
      forall k: nat
        ensures NumberOk(i, Init(n).nodes[i], k)
      {
      }
    }
  }

  lemma {:induction false} RunInv(n: nat, events: seq<Event>)
    requires Run(n, events).Some?
    ensures Inv(Run(n, events).value) && |Run(n, events).value.nodes| == n
  {
    if events == [] {
      InitInv(n);
    } else {
      var front, last := events[..|events| - 1], events[|events| - 1];
      RunInv(n, front);
      match last
      case Request(at, client) => RequestKeeps(Run(n, front).value, at, client);
      case Deliver(p) => DeliverKeeps(Run(n, front).value, p);
    }
  }

  // ---- What the server promises ----

  /** The pending map holds exactly the requests issued and not yet answered, each with its client. */
  lemma PendingIsUnanswered(n: nat, events: seq<Event>, i: nat, k: nat)
    requires Run(n, events).Some? && i < n
    ensures var sys := Run(n, events).value;
            && i < |sys.nodes|
            && var node := sys.nodes[i];
               && (k in node.state.pending <==> k < |node.issued| && AnswersTo(node.answers, k) == [])
               && (k in node.state.pending ==> node.state.pending[k] == node.issued[k])
  {
    RunInv(n, events);
    assert NumberOk(i, Run(n, events).value.nodes[i], k);
  }

  /** A request is answered once, to the client that made it, as soon as any peer's reply to it arrives; however
      many more arrive, never again; and never before. */
  lemma AnsweredOnceAPeerReplied(n: nat, events: seq<Event>, i: nat, k: nat)
    requires Run(n, events).Some? && i < n
    ensures var sys := Run(n, events).value;
            && i < |sys.nodes|
            && var node := sys.nodes[i];
               && (PeerReplied(sys, i, k) ==> k < |node.issued|)
               && AnswersTo(node.answers, k) == if PeerReplied(sys, i, k) then [Answer(i, node, k)] else []
  {
    RunInv(n, events);
    var sys := Run(n, events).value;
    assert NumberOk(i, sys.nodes[i], k);
    if PeerReplied(sys, i, k) {
      var from: nat :| Packet(from, Peer(i), NestedReply(k)) in sys.delivered;
      assert Effect(sys, Packet(from, Peer(i), NestedReply(k)));
    }
  }

  lemma RepliersAreOthers(sys: System, i: nat, k: nat)
    requires Inv(sys) && i < |sys.nodes| && PeerReplied(sys, i, k)
    ensures |sys.nodes| > 1
  {
    var from: nat :| Packet(from, Peer(i), NestedReply(k)) in sys.delivered;
    assert Effect(sys, Packet(from, Peer(i), NestedReply(k)));
    assert PacketOk(sys, Packet(from, Peer(i), NestedReply(k)));
  }

  /** The packets ever sent to clients are exactly the answers to requests that a peer has replied to: the reply
      numbered k of server i goes to the client that made request k, and no other packet goes to any client. */
  lemma ClientsGetAnswersOnly(n: nat, events: seq<Event>, p: Packet)
    requires Run(n, events).Some? && p.to.ClientAt?
    ensures var sys := Run(n, events).value;
            p in sys.network
            <==> && p.from < |sys.nodes| && p.msg.ClientReply?
                 && p.msg.data < |sys.nodes[p.from].issued| && p.to.addr == sys.nodes[p.from].issued[p.msg.data]
                 && PeerReplied(sys, p.from, p.msg.data)
  {
    RunInv(n, events);
    var sys := Run(n, events).value;
    if p in sys.network {
      assert PacketOk(sys, p);
      InAnswersTo(sys.nodes[p.from].answers, p);
      AnsweredOnceAPeerReplied(n, events, p.from, p.msg.data);
    } else if p.from < n && p.msg.ClientReply? && PeerReplied(sys, p.from, p.msg.data) {
      AnsweredOnceAPeerReplied(n, events, p.from, p.msg.data);
      var q := Answer(p.from, sys.nodes[p.from], p.msg.data);
      AnswersAreAnswers(sys.nodes[p.from].answers, p.msg.data, q);
      assert AnswersSent(sys, p.from);
    }
  }

  lemma {:induction false} InAnswersTo(answers: seq<Packet>, p: Packet)
    requires p in answers && p.msg.ClientReply?
    ensures p in AnswersTo(answers, p.msg.data)
  {
    if answers[|answers| - 1] == p {
    } else {
      InAnswersTo(answers[..|answers| - 1], p);
    }
  }

  lemma {:induction false} AnswersAreAnswers(answers: seq<Packet>, k: nat, q: Packet)
    requires q in AnswersTo(answers, k)
    ensures q in answers
  {
    if answers[|answers| - 1] == q {
    } else {
      AnswersAreAnswers(answers[..|answers| - 1], k, q);
    }
  }

  ghost predicate AllAnswered(sys: System)
  {
    forall i: nat, k: nat :: i < |sys.nodes| && k < |sys.nodes[i].issued| ==>
      AnswersTo(sys.nodes[i].answers, k) == [Answer(i, sys.nodes[i], k)]
  }

  /** Once every packet has arrived, every request has its one answer, given another server to ask. */
  lemma NothingInFlightMeansAnswered(n: nat, events: seq<Event>)
    requires Run(n, events).Some? && Run(n, events).value.delivered == Run(n, events).value.network
    ensures var sys := Run(n, events).value;
            AllAnswered(sys) <==> n != 1 || Issued(sys, 0) == 0
  {
    RunInv(n, events);
    var sys := Run(n, events).value;
    forall i: nat, k: nat | i < n && k < |sys.nodes[i].issued|
      ensures n > 1 <==> AnswersTo(sys.nodes[i].answers, k) == [Answer(i, sys.nodes[i], k)]
    {
      AnsweredOnceAPeerReplied(n, events, i, k);
      if n > 1 {
        var j := if i == 0 then 1 else 0;
        assert Asked(sys, i, j, k);
        assert Effect(sys, Packet(i, Peer(j), Nested(k)));
        assert Packet(j, Peer(i), NestedReply(k)) in sys.delivered;
      } else if PeerReplied(sys, i, k) {
        RepliersAreOthers(sys, i, k);
      }
    }
    if n == 1 && Issued(sys, 0) > 0 {
      assert AnswersTo(sys.nodes[0].answers, 0) != [Answer(0, sys.nodes[0], 0)];
    }
  }

  /** No event fails while no server has been asked more than 1,000,000 times ... */
  lemma NoFailureWithinLimit(n: nat, events: seq<Event>, e: Event)
    requires Run(n, events).Some? && Possible(Run(n, events).value, e)
    requires forall i :: 0 <= i < n ==> Issued(Run(n, events).value, i) <= 1_000_000
    ensures Run(n, events + [e]).Some?
  {
    RunInv(n, events);
    var sys := Run(n, events).value;
    assert (events + [e])[..|events|] == events;
    if e.Deliver? {
      DeliverKeeps(sys, e.packet);
      assert PacketOk(sys, e.packet);
    }
  }

  /** ... and one request more lets two deliveries make it fail. */
  lemma FailureBeyondLimit(n: nat, events: seq<Event>, i: nat, j: nat)
    requires Run(n, events).Some? && i < n && j < n && i != j
    requires Issued(Run(n, events).value, i) > 1_000_000
    ensures var ask := Deliver(Packet(i, Peer(j), Nested(1_000_000)));
            var reply := Deliver(Packet(j, Peer(i), NestedReply(1_000_000)));
            && Run(n, events + [ask]).Some?
            && Possible(Run(n, events + [ask]).value, reply)
            && Step(Run(n, events + [ask]).value, reply).None?
  {
    RunInv(n, events);
    var sys := Run(n, events).value;
    var ask := Deliver(Packet(i, Peer(j), Nested(SEQ_LIMIT)));
    var reply := Deliver(Packet(j, Peer(i), NestedReply(SEQ_LIMIT)));
    assert (events + [ask])[..|events|] == events;
    assert Asked(sys, i, j, SEQ_LIMIT);
    DeliverKeeps(sys, ask.packet);
    DeliverKeeps(Step(sys, ask).value, reply.packet);
  }

  // The same client asks server i k times.
  function Asking(i: nat, k: nat): seq<Event>
  {
    seq(k, _ => Request(i, 0))
  }

  lemma {:induction false} AskingIssues(n: nat, i: nat, k: nat)
    requires i < n
    ensures Run(n, Asking(i, k)).Some? && |Run(n, Asking(i, k)).value.nodes| == n
    ensures Issued(Run(n, Asking(i, k)).value, i) == k
  {
    if k == 0 {
    } else {
      AskingIssues(n, i, k - 1);
      var events := Asking(i, k);
      assert events[..|events| - 1] == Asking(i, k - 1) && events[|events| - 1] == Request(i, 0);
    }
  }

  /** With two servers or more some run does fail: one request too many at any server, then two deliveries. */
  lemma FailureIsReachable(n: nat, i: nat, j: nat)
    requires i < n && j < n && i != j
    ensures exists events, e :: Fails(n, events, e)
  {
    var k := SEQ_LIMIT + 1;
    AskingIssues(n, i, k);
    FailureBeyondLimit(n, Asking(i, k), i, j);
    var ask := Deliver(Packet(i, Peer(j), Nested(SEQ_LIMIT)));
    var reply := Deliver(Packet(j, Peer(i), NestedReply(SEQ_LIMIT)));
    assert Fails(n, Asking(i, k) + [ask], reply);
  }

  // After the events this one is possible, and its handler fails.
  ghost predicate Fails(n: nat, events: seq<Event>, e: Event)
  {
    && Run(n, events).Some? && Possible(Run(n, events).value, e)
    && Step(Run(n, events).value, e).None?
  }
}
