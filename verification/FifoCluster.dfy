/** The whole cluster over one lossless first-in-first-out channel per pair of replicas.  A channel carries the messages
    of all 256 groups, as a peer's connection does. */
module FifoCluster {
  import opened Routing
  import opened Messages
  import opened SmrSteps
  import opened MorphlingSteps
  import opened Cluster
  import opened Replies
  import opened SentReplies
  import R = Replication
  import F = Convergence

  // `C` is the cluster of Cluster; its net holds everything ever sent.
  datatype FifoState = FifoState(C: ClusterState, chans: F.Channels) {
    function Chan(from: nat, to: nat): seq<GenericMessage> { F.Queue(chans, from, to) }
  }

  datatype FifoEvent =
    | FromOutside(ev: Event)            // a client's message
    | Receipt(from: nat, to: nat)       // the message at the head of that channel

  // What the event makes its replica send to peers, in order.
  function WireOf(n: nat, C: ClusterState, ev: Event): seq<GenericMessage>
    requires n >= 1
  {
    match ev
    case FromClient(r, msg, trans) =>
      if r >= |C.nodes| || |C.nodes[r].smrs| != KEY_SPACE then []
      else OnClientInput(NodeOf(n, r), C.nodes[r], Operate(msg), trans).wire
    case GuidanceAsked(_, _) => []
    case FromPeer(m) =>
      if m.to >= |C.nodes| || PeerCrashes(NodeOf(n, m.to), C.nodes[m.to], m) then []
      else OnPeerMessage(NodeOf(n, m.to), C.nodes[m.to], m).wire
  }

  function FifoStep(n: nat, f: FifoState, ev: FifoEvent): FifoState
    requires n >= 1
  {
    match ev
    case FromOutside(ev) =>
      if ev.FromPeer? then f
      else FifoState(Step(n, f.C, ev), F.Enqueue(f.chans, WireOf(n, f.C, ev)))
    case Receipt(from, to) =>
      var queue := f.Chan(from, to);
      if queue == [] then f
      else FifoState(Step(n, f.C, FromPeer(queue[0])),
                     F.Enqueue(f.chans[(from, to) := queue[1..]], WireOf(n, f.C, FromPeer(queue[0]))))
  }

  function FifoRun(n: nat, events: seq<FifoEvent>): FifoState
    requires n >= 1
  {
    if events == [] then FifoState(InitialCluster(n), map[])
    else FifoStep(n, FifoRun(n, events[..|events| - 1]), events[|events| - 1])
  }

  ghost predicate AllRoutedIn(n: nat, events: seq<FifoEvent>)
    requires 1 <= n <= KEY_SPACE
  {
    forall e <- events :: e.FromOutside? ==> Routed(n, e.ev)
  }

  // ---- One group's part of a channel ----

  function GroupPart(msgs: seq<GenericMessage>, g: nat): seq<GenericMessage>
  {
    if msgs == [] then []
    else (if InGroup(msgs[0], g) then [msgs[0]] else []) + GroupPart(msgs[1..], g)
  }

  lemma {:induction false} GroupPartOfBoth(a: seq<GenericMessage>, b: seq<GenericMessage>, g: nat)
    ensures GroupPart(a + b, g) == GroupPart(a, g) + GroupPart(b, g)
  {
    if a == [] {
      assert a + b == b;
    } else {
      GroupPartOfBoth(a[1..], b, g);
      assert (a + b)[1..] == a[1..] + b && (a + b)[0] == a[0];
      var first := if InGroup(a[0], g) then [a[0]] else [];
      assert first + GroupPart(a[1..], g) + GroupPart(b, g) == first + (GroupPart(a[1..], g) + GroupPart(b, g));
    }
  }

  lemma {:induction false} GroupPartAll(msgs: seq<GenericMessage>, g0: nat, g: nat)
    requires forall i :: 0 <= i < |msgs| ==> InGroup(msgs[i], g0)
    ensures GroupPart(msgs, g) == if g == g0 then msgs else []
  {
    if msgs == [] {
    } else {
      GroupPartAll(msgs[1..], g0, g);
    }
  }

  lemma {:induction false} BetweenInGroup(msgs: seq<GenericMessage>, g0: nat, from: nat, to: nat)
    requires forall i :: 0 <= i < |msgs| ==> InGroup(msgs[i], g0)
    ensures forall i :: 0 <= i < |F.Between(msgs, from, to)| ==> InGroup(F.Between(msgs, from, to)[i], g0)
  {
    if msgs == [] {
    } else {
      BetweenInGroup(msgs[..|msgs| - 1], g0, from, to);
    }
  }

  // ---- Each group sees a run over its own channels ----

  ghost predicate Matches(n: nat, f: FifoState, g: nat, fg: F.Fifo)
    requires 1 <= n <= KEY_SPACE && g < KEY_SPACE && Shaped(n, f.C)
  {
    && fg.sys == Project(n, f.C, g)
    && forall a: nat, b: nat :: fg.Chan(a, b) == GroupPart(f.Chan(a, b), g)
  }

  // Messages under way have been sent.
  ghost predicate InFlightSent(f: FifoState)
  {
    forall a: nat, b: nat :: forall m <- f.Chan(a, b) :: m in f.C.net
  }

  ghost predicate FifoOk(n: nat, f: FifoState)
    requires 1 <= n <= KEY_SPACE
  {
    Settled(n, f.C) && GroupsOk(n, f.C) && InFlightSent(f)
  }

  // The wire of a step in group g0: the step's messages, stamped; everything on it is in the net afterwards.
  lemma WriteWire(n: nat, C: ClusterState, r: nat, msg: ClientMessage, trans: Transport)
    requires 1 <= n <= KEY_SPACE && Settled(n, C) && r < n && IsWrite(n, msg)
    ensures var g0 := GroupOf(msg.keyHash);
            var step := OperationStep(C.nodes[r].smrs[g0], n, r, g0, msg);
            var wire := WireOf(n, C, FromClient(r, msg, trans));
            && wire == F.StampAll(step.out, r, Guide(n).epoch)
            && (forall i :: 0 <= i < |wire| ==> InGroup(wire[i], g0))
  {
    var g0 := GroupOf(msg.keyHash);
    var step := OperationStep(C.nodes[r].smrs[g0], n, r, g0, msg);
    R.BroadcastContents(n, r, AnnounceLast(step.state.log, C.nodes[r].smrs[g0].commits, g0));
    assert [] + step.out == step.out;
    PreparedStamps(NodeOf(n, r), step.out);
  }

  lemma PreparedOne(k: Node, m: GenericMessage, g0: nat)
    requires InGroup(m, g0)
    ensures Prepared(k, [m]) == F.StampAll([m], k.me, k.guide.epoch)
    ensures forall i :: 0 <= i < |Prepared(k, [m])| ==> InGroup(Prepared(k, [m])[i], g0)
  {
  }

  lemma AppendWire(n: nat, C: ClusterState, m: GenericMessage)
    requires 1 <= n <= KEY_SPACE && Settled(n, C) && GroupsOk(n, C) && m in C.net && m.body.Append?
    ensures m.to < n && !AppendAborts(C.nodes[m.to].smrs[m.body.groupId], m.body)
    ensures var g0 := m.body.groupId;
            var step := AppendStep(C.nodes[m.to].smrs[g0], g0, m.body, m.from);
            var wire := WireOf(n, C, FromPeer(m));
            && wire == F.StampAll(step.out, m.to, Guide(n).epoch)
            && (forall i :: 0 <= i < |wire| ==> InGroup(wire[i], g0))
  {
    InItsGroup(n, C, m);
    AppendChanges(n, C, m);
    var k, g0 := NodeOf(n, m.to), m.body.groupId;
    var out := AppendStep(C.nodes[m.to].smrs[g0], g0, m.body, m.from).out;
    R.AppendDelivery(GroupConfig(n, g0), Project(n, C, g0), m);
    AppendAtNode(k, C.nodes[m.to], m);
    assert [] + out == out;
    assert out == [out[0]] && InGroup(out[0], g0);
    PreparedOne(k, out[0], g0);
  }

  lemma ReplyWire(n: nat, C: ClusterState, m: GenericMessage)
    requires 1 <= n <= KEY_SPACE && Settled(n, C) && GroupsOk(n, C) && m in C.net && m.body.AppendReply?
    ensures WireOf(n, C, FromPeer(m)) == []
  {
    var batch := ReplyChanges(n, C, m);
  }

  // What a message delivered in group g sends there is what the group's own system sends.
  lemma SendsAgree(n: nat, C: ClusterState, m: GenericMessage)
    requires 1 <= n <= KEY_SPACE && Settled(n, C) && GroupsOk(n, C) && m in C.net
    ensures !m.body.GuidanceBody? && m.body.groupId < KEY_SPACE
    ensures var g := m.body.groupId;
            && WireOf(n, C, FromPeer(m)) == F.Sends(GroupConfig(n, g), Project(n, C, g), R.Deliver(m))
            && (forall i :: 0 <= i < |WireOf(n, C, FromPeer(m))| ==> InGroup(WireOf(n, C, FromPeer(m))[i], g))
  {
    InItsGroup(n, C, m);
    var g := m.body.groupId;
    if m.body.Append? {
      AppendWire(n, C, m);
    } else {
      ReplyWire(n, C, m);
      R.ReplyDelivery(GroupConfig(n, g), Project(n, C, g), m);
    }
  }

  lemma EnqueuePart(chans: F.Channels, wire: seq<GenericMessage>, g0: nat, g: nat, a: nat, b: nat)
    requires forall i :: 0 <= i < |wire| ==> InGroup(wire[i], g0)
    ensures GroupPart(F.Queue(F.Enqueue(chans, wire), a, b), g)
            == GroupPart(F.Queue(chans, a, b), g) + if g == g0 then F.Between(wire, a, b) else []
  {
    F.EnqueueOnChannel(chans, wire, a, b);
    GroupPartOfBoth(F.Queue(chans, a, b), F.Between(wire, a, b), g);
    BetweenInGroup(wire, g0, a, b);
    GroupPartAll(F.Between(wire, a, b), g0, g);
  }

  lemma {:induction false} BetweenIsSent(wire: seq<GenericMessage>, a: nat, b: nat, m: GenericMessage)
    requires m in F.Between(wire, a, b)
    ensures m in ToSet(wire)
  {
    if wire[|wire| - 1] == m {
    } else {
      BetweenIsSent(wire[..|wire| - 1], a, b, m);
    }
  }

  lemma StillSent(f: FifoState, chans: F.Channels, wire: seq<GenericMessage>, C': ClusterState)
    requires InFlightSent(f) && f.C.net + ToSet(wire) <= C'.net
    requires forall a: nat, b: nat :: forall m <- F.Queue(chans, a, b) :: m in f.Chan(a, b)
    ensures InFlightSent(FifoState(C', F.Enqueue(chans, wire)))
  {
    forall a: nat, b: nat, m | m in F.Queue(F.Enqueue(chans, wire), a, b)
      ensures m in C'.net
    {
      F.EnqueueOnChannel(chans, wire, a, b);
      if m in F.Between(wire, a, b) {
        BetweenIsSent(wire, a, b, m);
      } else {
        assert m in f.Chan(a, b);
      }
    }
  }

  lemma WireIsSent(n: nat, C: ClusterState, ev: Event)
    requires 1 <= n <= KEY_SPACE && Settled(n, C) && GroupsOk(n, C) && (ev.FromPeer? ==> ev.m in C.net)
    ensures C.net + ToSet(WireOf(n, C, ev)) <= Step(n, C, ev).net
  {
    if ev.FromPeer? {
      InItsGroup(n, C, ev.m);
      if ev.m.body.AppendReply? {
        ReplyWire(n, C, ev.m);
        var batch := ReplyChanges(n, C, ev.m);
      } else {
        AppendChanges(n, C, ev.m);
      }
    }
  }

  lemma GroupRunMore(c: R.Config, gevents: seq<F.FifoEvent>, ev: F.FifoEvent)
    ensures F.FifoRun(c, gevents + [ev]) == F.FifoStep(c, F.FifoRun(c, gevents), ev)
  {
    assert (gevents + [ev])[..|gevents|] == gevents;
  }

  lemma {:induction false} GroupRequest(c: R.Config, gevents: seq<F.FifoEvent>, msg: ClientMessage,
                                        wire: seq<GenericMessage>)
    requires F.Sends(c, F.FifoRun(c, gevents).sys, R.Propose(msg)) == wire
    ensures F.FifoRun(c, gevents + [F.Request(msg)])
            == F.Fifo(R.Step(c, F.FifoRun(c, gevents).sys, R.Propose(msg)),
                      F.Enqueue(F.FifoRun(c, gevents).chans, wire))
  {
    GroupRunMore(c, gevents, F.Request(msg));
  }

  // Nothing is on the wire, or only messages of another group: this group does not notice.
  lemma {:induction false} OtherGroupMatches(n: nat, f: FifoState, f': FifoState, g: nat, fg: F.Fifo, chans: F.Channels,
                          wire: seq<GenericMessage>, g0: nat)
    requires 1 <= n <= KEY_SPACE && g < KEY_SPACE && Shaped(n, f.C) && Shaped(n, f'.C) && Matches(n, f, g, fg)
    requires Project(n, f'.C, g) == Project(n, f.C, g) && g != g0
    requires f'.chans == F.Enqueue(chans, wire) && forall i :: 0 <= i < |wire| ==> InGroup(wire[i], g0)
    requires forall a: nat, b: nat :: GroupPart(F.Queue(chans, a, b), g) == GroupPart(f.Chan(a, b), g)
    ensures Matches(n, f', g, fg)
  {
    forall a: nat, b: nat
      ensures fg.Chan(a, b) == GroupPart(f'.Chan(a, b), g)
    {
      EnqueuePart(chans, wire, g0, g, a, b);
    }
  }

  // The same messages are put on the group's own channels.
  lemma {:induction false} SameGroupMatches(n: nat, f': FifoState, g: nat, fg': F.Fifo, chans: F.Channels,
                                            gchans: F.Channels,
                         wire: seq<GenericMessage>)
    requires 1 <= n <= KEY_SPACE && g < KEY_SPACE && Shaped(n, f'.C) && fg'.sys == Project(n, f'.C, g)
    requires f'.chans == F.Enqueue(chans, wire) && fg'.chans == F.Enqueue(gchans, wire)
    requires forall i :: 0 <= i < |wire| ==> InGroup(wire[i], g)
    requires forall a: nat, b: nat :: F.Queue(gchans, a, b) == GroupPart(F.Queue(chans, a, b), g)
    ensures Matches(n, f', g, fg')
  {
    forall a: nat, b: nat
      ensures fg'.Chan(a, b) == GroupPart(f'.Chan(a, b), g)
    {
      EnqueuePart(chans, wire, g, g, a, b);
      F.EnqueueOnChannel(gchans, wire, a, b);
    }
  }

  lemma WriteSends(n: nat, C: ClusterState, ev: Event)
    requires 1 <= n <= KEY_SPACE && Settled(n, C) && ev.FromClient? && IsWrite(n, ev.msg) && Routed(n, ev)
    ensures var g := GroupOf(ev.msg.keyHash);
            && WireOf(n, C, ev) == F.Sends(GroupConfig(n, g), Project(n, C, g), R.Propose(ev.msg))
            && (forall i :: 0 <= i < |WireOf(n, C, ev)| ==> InGroup(WireOf(n, C, ev)[i], g))
  {
    var g := GroupOf(ev.msg.keyHash);
    WriteWire(n, C, ev.r, ev.msg, ev.trans);
    assert Project(n, C, g).reps[ev.r] == C.nodes[ev.r].smrs[g];
  }

  lemma {:induction false} WriteInGroup(n: nat, f: FifoState, ev: Event, gevents: seq<F.FifoEvent>)
    returns (more: seq<F.FifoEvent>)
    requires 1 <= n <= KEY_SPACE && FifoOk(n, f) && ev.FromClient? && IsWrite(n, ev.msg) && Routed(n, ev)
    requires Matches(n, f, GroupOf(ev.msg.keyHash), F.FifoRun(GroupConfig(n, GroupOf(ev.msg.keyHash)), gevents))
    ensures var g := GroupOf(ev.msg.keyHash);
            && Shaped(n, FifoStep(n, f, FromOutside(ev)).C)
            && Matches(n, FifoStep(n, f, FromOutside(ev)), g, F.FifoRun(GroupConfig(n, g), more))
  {
    var g := GroupOf(ev.msg.keyHash);
    var c, f' := GroupConfig(n, g), FifoStep(n, f, FromOutside(ev));
    var fg := F.FifoRun(c, gevents);
    WriteSends(n, f.C, ev);
    StepRefinesGroup(n, f.C, ev, g);
    assert ProjectEvent(n, g, ev) == R.Propose(ev.msg);
    more := gevents + [F.Request(ev.msg)];
    GroupRequest(c, gevents, ev.msg, WireOf(n, f.C, ev));
    forall a: nat, b: nat
      ensures F.Queue(fg.chans, a, b) == GroupPart(F.Queue(f.chans, a, b), g)
    {
      assert fg.Chan(a, b) == GroupPart(f.Chan(a, b), g);
    }
    SameGroupMatches(n, f', g, F.FifoRun(c, more), f.chans, fg.chans, WireOf(n, f.C, ev));
  }

  lemma {:induction false} WriteElsewhere(n: nat, f: FifoState, ev: Event, g: nat, fg: F.Fifo)
    requires 1 <= n <= KEY_SPACE && g < KEY_SPACE && FifoOk(n, f) && Matches(n, f, g, fg)
    requires ev.FromClient? && IsWrite(n, ev.msg) && Routed(n, ev) && GroupOf(ev.msg.keyHash) != g
    ensures Shaped(n, FifoStep(n, f, FromOutside(ev)).C)
    ensures Matches(n, FifoStep(n, f, FromOutside(ev)), g, fg)
  {
    WriteSends(n, f.C, ev);
    OtherGroupStep(n, f.C, ev, g);
    assert FifoStep(n, f, FromOutside(ev)) == FifoState(Step(n, f.C, ev), F.Enqueue(f.chans, WireOf(n, f.C, ev)));
    OtherGroupMatches(n, f, FifoStep(n, f, FromOutside(ev)), g, fg, f.chans, WireOf(n, f.C, ev),
                      GroupOf(ev.msg.keyHash));
  }

  lemma {:induction false} QuietMatches(n: nat, f: FifoState, ev: Event, g: nat, fg: F.Fifo)
    requires 1 <= n <= KEY_SPACE && g < KEY_SPACE && FifoOk(n, f) && Matches(n, f, g, fg) && IsQuiet(n, ev)
    ensures Shaped(n, FifoStep(n, f, FromOutside(ev)).C)
    ensures Matches(n, FifoStep(n, f, FromOutside(ev)), g, fg)
  {
    OtherClientStep(n, f.C, ev, g);
    assert ProjectEvent(n, g, ev) == SKIP;
    SkipDoesNothing(GroupConfig(n, g), Project(n, f.C, g));
    assert WireOf(n, f.C, ev) == [];
  }

  // Taking a message off the head of a channel, seen from one group.
  lemma PopPart(chans: F.Channels, from: nat, to: nat, g: nat, a: nat, b: nat)
    requires F.Queue(chans, from, to) != []
    ensures var queue := F.Queue(chans, from, to);
            GroupPart(F.Queue(chans[(from, to) := queue[1..]], a, b), g)
            == if (a, b) == (from, to) && InGroup(queue[0], g)
               then GroupPart(queue, g)[1..] else GroupPart(F.Queue(chans, a, b), g)
  {
  }

  lemma {:induction false} ReceiptInGroup(n: nat, f: FifoState, from: nat, to: nat, gevents: seq<F.FifoEvent>)
    returns (more: seq<F.FifoEvent>)
    requires 1 <= n <= KEY_SPACE && FifoOk(n, f) && f.Chan(from, to) != [] && f.Chan(from, to)[0] in f.C.net
    requires f.Chan(from, to)[0].body.groupId < KEY_SPACE
    requires Matches(n, f, f.Chan(from, to)[0].body.groupId,
                     F.FifoRun(GroupConfig(n, f.Chan(from, to)[0].body.groupId), gevents))
    ensures var g := f.Chan(from, to)[0].body.groupId;
            && Shaped(n, FifoStep(n, f, Receipt(from, to)).C)
            && Matches(n, FifoStep(n, f, Receipt(from, to)), g, F.FifoRun(GroupConfig(n, g), more))
  {
    var m := f.Chan(from, to)[0];
    var g := m.body.groupId;
    var c, f' := GroupConfig(n, g), FifoStep(n, f, Receipt(from, to));
    var fg := F.FifoRun(c, gevents);
    var chans, gchans := f.chans[(from, to) := f.Chan(from, to)[1..]], fg.chans[(from, to) := fg.Chan(from, to)[1..]];
    assert fg.Chan(from, to) == GroupPart(f.Chan(from, to), g) && fg.Chan(from, to)[0] == m;
    SendsAgree(n, f.C, m);
    StepRefinesGroup(n, f.C, FromPeer(m), g);
    more := gevents + [F.Receipt(from, to)];
    GroupRunMore(c, gevents, F.Receipt(from, to));
    forall a: nat, b: nat
      ensures F.Queue(gchans, a, b) == GroupPart(F.Queue(chans, a, b), g)
    {
      PopPart(f.chans, from, to, g, a, b);
      assert fg.Chan(a, b) == GroupPart(f.Chan(a, b), g);
    }
    SameGroupMatches(n, f', g, F.FifoRun(c, more), chans, gchans, WireOf(n, f.C, FromPeer(m)));
  }

  lemma {:induction false} ReceiptElsewhere(n: nat, f: FifoState, from: nat, to: nat, g: nat, fg: F.Fifo)
    requires 1 <= n <= KEY_SPACE && g < KEY_SPACE && FifoOk(n, f) && Matches(n, f, g, fg)
    requires f.Chan(from, to) != [] && f.Chan(from, to)[0] in f.C.net && !InGroup(f.Chan(from, to)[0], g)
    ensures Shaped(n, FifoStep(n, f, Receipt(from, to)).C)
    ensures Matches(n, FifoStep(n, f, Receipt(from, to)), g, fg)
  {
    var m := f.Chan(from, to)[0];
    var f' := FifoStep(n, f, Receipt(from, to));
    var chans := f.chans[(from, to) := f.Chan(from, to)[1..]];
    SendsAgree(n, f.C, m);
    assert f' == FifoState(Step(n, f.C, FromPeer(m)), F.Enqueue(chans, WireOf(n, f.C, FromPeer(m))));
    OtherGroupStep(n, f.C, FromPeer(m), g);
    forall a: nat, b: nat
      ensures GroupPart(F.Queue(chans, a, b), g) == GroupPart(f.Chan(a, b), g)
    {
      PopPart(f.chans, from, to, g, a, b);
    }
    OtherGroupMatches(n, f, f', g, fg, chans, WireOf(n, f.C, FromPeer(m)), m.body.groupId);
  }

  lemma StepMatches(n: nat, f: FifoState, ev: FifoEvent, g: nat, gevents: seq<F.FifoEvent>)
    returns (more: seq<F.FifoEvent>)
    requires 1 <= n <= KEY_SPACE && g < KEY_SPACE && FifoOk(n, f)
    requires Matches(n, f, g, F.FifoRun(GroupConfig(n, g), gevents))
    requires ev.FromOutside? ==> Routed(n, ev.ev)
    ensures Shaped(n, FifoStep(n, f, ev).C) && Matches(n, FifoStep(n, f, ev), g, F.FifoRun(GroupConfig(n, g), more))
  {
    more := gevents;
    match ev
    case FromOutside(e) =>
      if e.FromPeer? {
      } else if IsQuiet(n, e) {
        QuietMatches(n, f, e, g, F.FifoRun(GroupConfig(n, g), gevents));
      } else if GroupOf(e.msg.keyHash) == g {
        more := WriteInGroup(n, f, e, gevents);
      } else {
        WriteElsewhere(n, f, e, g, F.FifoRun(GroupConfig(n, g), gevents));
      }
    case Receipt(from, to) =>
      if f.Chan(from, to) == [] {
      } else {
        var m := f.Chan(from, to)[0];
        assert m in f.Chan(from, to);
        assert m in f.C.net;
        if InGroup(m, g) {
          more := ReceiptInGroup(n, f, from, to, gevents);
        } else {
          ReceiptElsewhere(n, f, from, to, g, F.FifoRun(GroupConfig(n, g), gevents));
        }
      }
  }

  // ---- The cluster itself ----

  // The events of the unreliable network that the step amounts to.
  function AsEvents(f: FifoState, ev: FifoEvent): seq<Event>
  {
    match ev
    case FromOutside(e) => if e.FromPeer? then [] else [e]
    case Receipt(from, to) => if f.Chan(from, to) == [] then [] else [FromPeer(f.Chan(from, to)[0])]
  }

  function Lossy(n: nat, events: seq<FifoEvent>): seq<Event>
    requires n >= 1
  {
    if events == [] then []
    else Lossy(n, events[..|events| - 1]) + AsEvents(FifoRun(n, events[..|events| - 1]), events[|events| - 1])
  }

  lemma StepKeepsSent(n: nat, f: FifoState, ev: FifoEvent)
    requires 1 <= n <= KEY_SPACE && FifoOk(n, f) && (ev.FromOutside? ==> Routed(n, ev.ev))
    ensures InFlightSent(FifoStep(n, f, ev))
  {
    match ev
    case FromOutside(e) =>
      if e.FromPeer? {
      } else {
        WireIsSent(n, f.C, e);
        StillSent(f, f.chans, WireOf(n, f.C, e), Step(n, f.C, e));
      }
    case Receipt(from, to) =>
      if f.Chan(from, to) == [] {
      } else {
        var m := f.Chan(from, to)[0];
        assert m in f.Chan(from, to);
        WireIsSent(n, f.C, FromPeer(m));
        StillSent(f, f.chans[(from, to) := f.Chan(from, to)[1..]], WireOf(n, f.C, FromPeer(m)),
                  Step(n, f.C, FromPeer(m)));
      }
  }

  lemma StepIsLossy(n: nat, f: FifoState, ev: FifoEvent, lossy: seq<Event>)
    requires 1 <= n <= KEY_SPACE && f.C == Run(n, lossy) && AllRouted(n, lossy)
    requires ev.FromOutside? ==> Routed(n, ev.ev)
    ensures AllRouted(n, lossy + AsEvents(f, ev))
    ensures FifoStep(n, f, ev).C == Run(n, lossy + AsEvents(f, ev))
  {
    if AsEvents(f, ev) == [] {
      assert lossy + AsEvents(f, ev) == lossy;
    } else {
      assert (lossy + AsEvents(f, ev))[..|lossy|] == lossy;
    }
  }

  /** A run of the cluster over channels is a run over the unreliable network, so everything proved there holds here. */
  lemma {:induction false} FifoRefinesCluster(n: nat, events: seq<FifoEvent>)
    requires 1 <= n <= KEY_SPACE && AllRoutedIn(n, events)
    ensures AllRouted(n, Lossy(n, events)) && FifoRun(n, events).C == Run(n, Lossy(n, events))
    ensures FifoOk(n, FifoRun(n, events))
  {
    if events == [] {
      ClusterRefinesEveryGroup(n, []);
    } else {
      var front, last := events[..|events| - 1], events[|events| - 1];
      assert forall e <- front :: e in events;
      FifoRefinesCluster(n, front);
      assert last in events;
      var f, lossy := FifoRun(n, front), Lossy(n, front);
      StepKeepsSent(n, f, last);
      StepIsLossy(n, f, last, lossy);
      ClusterRefinesEveryGroup(n, Lossy(n, events));
    }
  }

  /** What such a run does to any one group, and to that group's part of every channel, is a run of that group over its
      own channels. */
  lemma {:induction false} FifoRefinesEveryGroup(n: nat, events: seq<FifoEvent>, g: nat)
    returns (gevents: seq<F.FifoEvent>)
    requires 1 <= n <= KEY_SPACE && AllRoutedIn(n, events) && g < KEY_SPACE
    ensures Shaped(n, FifoRun(n, events).C)
    ensures Matches(n, FifoRun(n, events), g, F.FifoRun(GroupConfig(n, g), gevents))
  {
    FifoRefinesCluster(n, events);
    if events == [] {
      gevents := [];
      InitialRefines(n);
    } else {
      var front, last := events[..|events| - 1], events[|events| - 1];
      assert forall e <- front :: e in events;
      gevents := FifoRefinesEveryGroup(n, front, g);
      FifoRefinesCluster(n, front);
      assert last in events;
      gevents := StepMatches(n, FifoRun(n, front), last, g, gevents);
    }
  }

  // ---- Convergence of the cluster ----

  ghost predicate Quiescent(f: FifoState)
  {
    forall a: nat, b: nat :: f.Chan(a, b) == []
  }

  // All logs of group g are its owner's, and all of it is committed.
  ghost predicate GroupConverged(n: nat, C: ClusterState, g: nat)
    requires 1 <= n <= KEY_SPACE && g < KEY_SPACE && Shaped(n, C)
  {
    var owner := C.nodes[OwnerOf(n, g)].smrs[g];
    && (forall r :: 0 <= r < n ==> C.nodes[r].smrs[g].log == owner.log)
    && owner.commits == |owner.log|
  }

  /** Convergence of the cluster: once nothing is in flight, each group's logs agree on all replicas and are committed,
      if and only if there are at least two replicas or the group's log is empty. */
  lemma {:induction false} QuiescentClusterConverged(n: nat, events: seq<FifoEvent>, g: nat)
    requires 1 <= n <= KEY_SPACE && AllRoutedIn(n, events) && Quiescent(FifoRun(n, events)) && g < KEY_SPACE
    ensures Shaped(n, FifoRun(n, events).C)
    ensures GroupConverged(n, FifoRun(n, events).C, g)
            <==> n >= 2 || FifoRun(n, events).C.nodes[OwnerOf(n, g)].smrs[g].log == []
  {
    var f, c := FifoRun(n, events), GroupConfig(n, g);
    var gevents := FifoRefinesEveryGroup(n, events, g);
    var fg := F.FifoRun(c, gevents);
    forall a: nat, b: nat
      ensures fg.Chan(a, b) == []
    {
      assert f.Chan(a, b) == [];
    }
    F.QuiescentMeansConverged(c, gevents);
    assert forall r :: 0 <= r < n ==> fg.sys.reps[r] == f.C.nodes[r].smrs[g];
  }

  /** With two replicas or more, once nothing is in flight every write any replica accepted has been committed, applied
      and answered: for each group, its owner has written one reply for every entry of the whole log, in order. */
  lemma {:induction false} QuiescentMeansAnswered(n: nat, events: seq<FifoEvent>, g: nat)
    requires 2 <= n <= KEY_SPACE && AllRoutedIn(n, events) && Quiescent(FifoRun(n, events)) && g < KEY_SPACE
    ensures var C := FifoRun(n, events).C;
            var r := OwnerOf(n, g);
            && Settled(n, C) && |EntryReplies(n, Lossy(n, events), r)| == |C.past[r].answers|
            && AppliedIn(C.past[r].answers, g) == C.nodes[r].smrs[g].log
            && RepliesTo(NodeOf(n, r), OfGroup(EntryReplies(n, Lossy(n, events), r), C.past[r].answers, g),
                         C.nodes[r].smrs[g].log)
            && |WritesIn(C.past[r].writes, g)| == |C.nodes[r].smrs[g].log|
  {
    FifoRefinesCluster(n, events);
    QuiescentClusterConverged(n, events, g);
    CommittedAnsweredOnce(n, Lossy(n, events), g);
    RunTables(n, Lossy(n, events));
    var C := FifoRun(n, events).C;
    assert WritesMatchLog(n, C, g);
    var log := C.nodes[OwnerOf(n, g)].smrs[g].log;
    assert log[..|log|] == log;
  }
}
