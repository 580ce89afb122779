/** n whole replicas, each with its 256 groups, its store and its clients, over the unreliable network,
    and the proof that every group of such a cluster is a group of Replication. */
module Cluster {
  import opened Routing
  import opened Messages
  import opened ReplicatedLog
  import opened SmrSteps
  import opened MorphlingSteps
  import R = Replication

  // A write the replica accepted: the log index it got and the client that waits for it.
  datatype Write = Write(gid: nat, index: nat, trans: Transport)

  // An entry the replica applied, and the client it answered.
  datatype Answer = Answer(gid: nat, entry: Entry, trans: Transport)

  // What a replica has been doing, in order; no handler looks at it.
  datatype History = History(writes: seq<Write>, answers: seq<Answer>)

  datatype ClusterState = ClusterState(nodes: seq<MState>, net: set<GenericMessage>, past: seq<History>, crashed: bool)

  datatype Event =
    | FromClient(r: nat, msg: ClientMessage, trans: Transport)
    | GuidanceAsked(r: nat, trans: Transport)
    | FromPeer(m: GenericMessage)

  function Guide(n: nat): Guidance
    requires n >= 1
  {
    InitialGuidance(n, KEY_SPACE)
  }

  function NodeOf(n: nat, r: nat): Node
    requires n >= 1
  {
    Node(r, n, Guide(n))
  }

  function InitialCluster(n: nat): ClusterState
  {
    ClusterState(seq(n, i => InitialState()), {}, seq(n, i => History([], [])), false)
  }

  function ToSet(msgs: seq<GenericMessage>): set<GenericMessage>
  {
    set m | m in msgs
  }

  function Serving(C: ClusterState, r: nat, served: Served, past: History): ClusterState
    requires r < |C.nodes| && r < |C.past|
  {
    ClusterState(C.nodes[r := served.state], C.net + ToSet(served.wire), C.past[r := past], C.crashed)
  }

  // The client message makes the replica append to a log.
  predicate IsWrite(n: nat, msg: ClientMessage)
    requires n >= 1
  {
    msg.epoch == Guide(n).epoch && msg.op.opType != READ
  }

  function AfterClient(n: nat, s: MState, past: History, msg: ClientMessage, trans: Transport): History
    requires n >= 1 && |s.smrs| == KEY_SPACE
  {
    if IsWrite(n, msg) then
      past.(writes := past.writes + [Write(GroupOf(msg.keyHash), |s.smrs[GroupOf(msg.keyHash)].log| + 1, trans)])
    else past
  }

  function Answers(pendings: map<nat, Transport>, gid: nat, entries: seq<Entry>): seq<Answer>
    requires forall e <- entries :: e.index in pendings
  {
    seq(|entries|, i requires 0 <= i < |entries| => Answer(gid, entries[i], pendings[entries[i].index]))
  }

  function AfterPeer(k: Node, s: MState, past: History, m: GenericMessage): History
    requires !PeerCrashes(k, s, m)
  {
    if m.body.AppendReply? && m.epoch == k.guide.epoch then
      var batch := ReplyStep(s.smrs[m.body.groupId], k.n, m.body, m.from).applied;
      assert forall e <- batch :: e in s.applyEntries + batch;
      past.(answers := past.answers + Answers(s.pendings, m.body.groupId, batch))
    else past
  }

  function Step(n: nat, C: ClusterState, ev: Event): ClusterState
    requires n >= 1
  {
    match ev
    case FromClient(r, msg, trans) =>
      if r >= |C.nodes| || r >= |C.past| || |C.nodes[r].smrs| != KEY_SPACE then C
      else Serving(C, r, OnClientInput(NodeOf(n, r), C.nodes[r], Operate(msg), trans),
                   AfterClient(n, C.nodes[r], C.past[r], msg, trans))
    case GuidanceAsked(r, trans) =>
      if r >= |C.nodes| || r >= |C.past| || |C.nodes[r].smrs| != KEY_SPACE then C
      else Serving(C, r, OnClientInput(NodeOf(n, r), C.nodes[r], AskGuidance, trans), C.past[r])
    case FromPeer(m) =>
      if m !in C.net then C
      else if m.to >= |C.nodes| || m.to >= |C.past| || PeerCrashes(NodeOf(n, m.to), C.nodes[m.to], m)
      then C.(crashed := true)
      else Serving(C, m.to, OnPeerMessage(NodeOf(n, m.to), C.nodes[m.to], m),
                   AfterPeer(NodeOf(n, m.to), C.nodes[m.to], C.past[m.to], m))
  }

  function Run(n: nat, events: seq<Event>): ClusterState
    requires n >= 1
  {
    if events == [] then InitialCluster(n)
    else Step(n, Run(n, events[..|events| - 1]), events[|events| - 1])
  }

  // ---- One group of the cluster ----

  function OwnerOf(n: nat, g: nat): (r: nat)
    requires 1 <= n <= KEY_SPACE && g < KEY_SPACE
    ensures r < n && r == Guide(n).NodeFor(g as bv8)
  {
    PositionHasOwner(n, g as bv8);
    Guide(n).NodeFor(g as bv8)
  }

  lemma PositionHasOwner(n: nat, pos: bv8)
    requires 1 <= n <= KEY_SPACE
    ensures 0 <= Guide(n).NodeFor(pos) < n
  {
    ByteRange(pos);
    var owner := OwnerOfPos(KEY_SPACE, n, pos);
  }

  lemma ByteRange(pos: bv8)
    ensures pos as int < 256
  {
  }

  function GroupConfig(n: nat, g: nat): R.Config
    requires 1 <= n <= KEY_SPACE && g < KEY_SPACE
  {
    R.Config(n, OwnerOf(n, g), g, Guide(n).epoch)
  }

  predicate InGroup(m: GenericMessage, g: nat)
  {
    !m.body.GuidanceBody? && m.body.groupId == g
  }

  function NetOf(net: set<GenericMessage>, g: nat): set<GenericMessage>
  {
    set m | m in net && InGroup(m, g)
  }

  // The entries of group g among the answers.
  function AppliedIn(answers: seq<Answer>, g: nat): seq<Entry>
  {
    if answers == [] then []
    else
      var last := answers[|answers| - 1];
      AppliedIn(answers[..|answers| - 1], g) + if last.gid == g then [last.entry] else []
  }

  // Every replica has all its groups and a history.
  ghost predicate Shaped(n: nat, C: ClusterState)
  {
    && |C.nodes| == |C.past| == n
    && forall r :: 0 <= r < n ==> |C.nodes[r].smrs| == KEY_SPACE
  }

  ghost function Project(n: nat, C: ClusterState, g: nat): R.System
    requires 1 <= n <= KEY_SPACE && g < KEY_SPACE && Shaped(n, C)
  {
    R.System(seq(n, r requires 0 <= r < n => C.nodes[r].smrs[g]),
             NetOf(C.net, g),
             AppliedIn(C.past[OwnerOf(n, g)].answers, g),
             C.crashed)
  }

  // Clients send each operation to the replica that owns its key.
  predicate Routed(n: nat, ev: Event)
    requires 1 <= n <= KEY_SPACE
  {
    ev.FromClient? ==> ev.r == OwnerOf(n, GroupOf(ev.msg.keyHash))
  }

  ghost predicate AllRouted(n: nat, events: seq<Event>)
    requires 1 <= n <= KEY_SPACE
  {
    forall ev <- events :: Routed(n, ev)
  }

  const SKIP := R.Deliver(GenericMessage(0, 0, 0, GuidanceBody(0, Guidance(0, 0, []))))

  lemma SkipDoesNothing(c: R.Config, s: R.System)
    ensures R.Step(c, s, SKIP) == s
  {
  }

  // What the event is to group g; SKIP does nothing there.
  function ProjectEvent(n: nat, g: nat, ev: Event): R.Event
    requires n >= 1
  {
    match ev
    case FromClient(_, msg, _) => if IsWrite(n, msg) && GroupOf(msg.keyHash) == g then R.Propose(msg) else SKIP
    case GuidanceAsked(_, _) => SKIP
    case FromPeer(m) => if InGroup(m, g) then R.Deliver(m) else SKIP
  }

  function ProjectEvents(n: nat, g: nat, events: seq<Event>): seq<R.Event>
    requires n >= 1
  {
    seq(|events|, i requires 0 <= i < |events| => ProjectEvent(n, g, events[i]))
  }

  // Between callbacks nothing waits to be sent or applied; every message belongs to a group; and every
  // entry of a log has a client registered at its owner.
  ghost predicate Settled(n: nat, C: ClusterState)
    requires 1 <= n <= KEY_SPACE
  {
    && Shaped(n, C)
    && (forall r :: 0 <= r < n ==> C.nodes[r].nextMsgs == [] && C.nodes[r].applyEntries == [])
    && (forall m <- C.net :: !m.body.GuidanceBody? && m.body.groupId < KEY_SPACE)
    && (forall g: nat, i: nat :: g < KEY_SPACE ==> Registered(n, C, g, i))
  }

  // A client waits for entry i of the group, if there is one.
  predicate Registered(n: nat, C: ClusterState, g: nat, i: nat)
    requires 1 <= n <= KEY_SPACE && g < KEY_SPACE && OwnerOf(n, g) < |C.nodes| && g < |C.nodes[OwnerOf(n, g)].smrs|
  {
    1 <= i <= |C.nodes[OwnerOf(n, g)].smrs[g].log| ==> i in C.nodes[OwnerOf(n, g)].pendings
  }

  ghost predicate GroupsOk(n: nat, C: ClusterState)
    requires 1 <= n <= KEY_SPACE
  {
    Shaped(n, C) && forall g: nat :: g < KEY_SPACE ==> R.Inv(GroupConfig(n, g), Project(n, C, g))
  }

  // What the invariant says of a group's owner.
  lemma OwnerFacts(n: nat, C: ClusterState, g: nat)
    requires 1 <= n <= KEY_SPACE && GroupsOk(n, C) && g < KEY_SPACE
    ensures var o := C.nodes[OwnerOf(n, g)].smrs[g];
            && WellIndexed(o.log) && o.commits <= |o.log|
            && AppliedIn(C.past[OwnerOf(n, g)].answers, g) == o.log[..o.commits]
  {
    var c, P := GroupConfig(n, g), Project(n, C, g);
    assert R.Inv(c, P);
    assert P.reps[c.owner] == C.nodes[c.owner].smrs[g];
  }

  lemma PreparedStamps(k: Node, out: seq<GenericMessage>)
    requires forall i :: 0 <= i < |out| ==> !out[i].body.GuidanceBody?
    ensures |Prepared(k, out)| == |out|
    ensures forall i :: 0 <= i < |out| ==> Prepared(k, out)[i] == R.Stamp(out[i], k.me, k.guide.epoch)
  {
  }

  lemma PreparedIsStamped(k: Node, out: seq<GenericMessage>)
    requires forall i :: 0 <= i < |out| ==> !out[i].body.GuidanceBody?
    ensures ToSet(Prepared(k, [] + out)) == R.Stamped(out, k.me, k.guide.epoch)
  {
    assert [] + out == out;
    PreparedStamps(k, out);
    SameMembers(Prepared(k, out), out, k.me, k.guide.epoch);
  }

  lemma SameMembers(msgs: seq<GenericMessage>, out: seq<GenericMessage>, from: nat, epoch: nat)
    requires |msgs| == |out| && forall i :: 0 <= i < |out| ==> msgs[i] == R.Stamp(out[i], from, epoch)
    ensures ToSet(msgs) == R.Stamped(out, from, epoch)
  {
    forall m | m in R.Stamped(out, from, epoch)
      ensures m in msgs
    {
      var i :| 0 <= i < |out| && R.Stamp(out[i], from, epoch) == m;
      assert msgs[i] == m;
    }
  }

  // ---- Every step of the cluster is a step of each group ----

  // What a handler of group g0 sends is stamped and stays in group g0.
  lemma SendingInGroup(k: Node, out: seq<GenericMessage>, g0: nat)
    requires forall i :: 0 <= i < |out| ==> InGroup(out[i], g0)
    ensures ToSet(Prepared(k, [] + out)) == R.Stamped(out, k.me, k.guide.epoch)
    ensures forall m <- R.Stamped(out, k.me, k.guide.epoch) :: InGroup(m, g0)
  {
    PreparedIsStamped(k, out);
    forall m <- R.Stamped(out, k.me, k.guide.epoch)
      ensures InGroup(m, g0)
    {
      var i :| 0 <= i < |out| && R.Stamp(out[i], k.me, k.guide.epoch) == m;
      assert InGroup(out[i], g0);
    }
  }

  // The cluster after replica r changed its part in group g0 to st and sent `wire`, all of group g0.
  ghost predicate ChangedIn(n: nat, C: ClusterState, C': ClusterState, r: nat, g0: nat, st: SmrState,
                            wire: set<GenericMessage>)
    requires Shaped(n, C) && r < n && g0 < KEY_SPACE
  {
    && |C'.nodes| == |C'.past| == n
    && C'.nodes == C.nodes[r := C'.nodes[r]]
    && C'.nodes[r].smrs == C.nodes[r].smrs[g0 := st]
    && C'.nodes[r].nextMsgs == [] && C'.nodes[r].applyEntries == []
    && C'.net == C.net + wire
    && (forall m <- wire :: InGroup(m, g0))
    && C'.crashed == C.crashed
  }

  lemma ProjectChanged(n: nat, C: ClusterState, C': ClusterState, r: nat, g0: nat, st: SmrState,
                       wire: set<GenericMessage>, g: nat)
    requires 1 <= n <= KEY_SPACE && Shaped(n, C) && r < n && g0 < KEY_SPACE && g < KEY_SPACE
    requires ChangedIn(n, C, C', r, g0, st, wire)
    ensures Shaped(n, C')
    ensures Project(n, C', g).reps == if g == g0 then Project(n, C, g).reps[r := st] else Project(n, C, g).reps
    ensures Project(n, C', g).net == if g == g0 then Project(n, C, g).net + wire else Project(n, C, g).net
  {
    var P, P' := Project(n, C, g), Project(n, C', g);
    assert P'.reps == if g == g0 then P.reps[r := st] else P.reps;
    if g == g0 {
      assert NetOf(wire, g) == wire;
    } else {
      assert NetOf(wire, g) == {};
    }
    assert NetOf(C.net + wire, g) == NetOf(C.net, g) + NetOf(wire, g);
  }

  lemma SettledAfter(n: nat, C: ClusterState, C': ClusterState, r: nat, g0: nat, st: SmrState,
                     wire: set<GenericMessage>)
    requires 1 <= n <= KEY_SPACE && Settled(n, C) && r < n && g0 < KEY_SPACE
    requires ChangedIn(n, C, C', r, g0, st, wire)
    requires forall i: nat :: i in C.nodes[r].pendings ==> i in C'.nodes[r].pendings
    requires r == OwnerOf(n, g0) ==>
               forall i: nat :: 1 <= i <= |st.log| ==>
                 i in C'.nodes[r].pendings || i <= |C.nodes[r].smrs[g0].log|
    ensures Settled(n, C')
  {
    assert forall m <- wire :: InGroup(m, g0);
    forall g: nat, i: nat | g < KEY_SPACE
      ensures Registered(n, C', g, i)
    {
      assert Registered(n, C, g, i);
      if g != g0 || OwnerOf(n, g) != r {
        assert C'.nodes[OwnerOf(n, g)].smrs[g] == C.nodes[OwnerOf(n, g)].smrs[g];
      }
    }
  }

  lemma WriteChanges(n: nat, C: ClusterState, r: nat, msg: ClientMessage, trans: Transport)
    requires 1 <= n <= KEY_SPACE && Settled(n, C) && r < n && IsWrite(n, msg)
    ensures var g0 := GroupOf(msg.keyHash);
            var step := OperationStep(C.nodes[r].smrs[g0], n, r, g0, msg);
            var C' := Step(n, C, FromClient(r, msg, trans));
            && ChangedIn(n, C, C', r, g0, step.state, R.Stamped(step.out, r, Guide(n).epoch))
            && C'.nodes[r].pendings == C.nodes[r].pendings[|step.state.log| := trans]
            && (forall q :: 0 <= q < n ==> C'.past[q].answers == C.past[q].answers)
  {
    var g0 := GroupOf(msg.keyHash);
    var step := OperationStep(C.nodes[r].smrs[g0], n, r, g0, msg);
    R.BroadcastContents(n, r, AnnounceLast(step.state.log, C.nodes[r].smrs[g0].commits, g0));
    SendingInGroup(NodeOf(n, r), step.out, g0);
  }

  lemma WriteStep(n: nat, C: ClusterState, r: nat, msg: ClientMessage, trans: Transport, g: nat)
    requires 1 <= n <= KEY_SPACE && g < KEY_SPACE && Settled(n, C)
    requires IsWrite(n, msg) && Routed(n, FromClient(r, msg, trans))
    ensures var ev := FromClient(r, msg, trans);
            Shaped(n, Step(n, C, ev))
            && Project(n, Step(n, C, ev), g) == R.Step(GroupConfig(n, g), Project(n, C, g), ProjectEvent(n, g, ev))
  {
    var g0 := GroupOf(msg.keyHash);
    var step := OperationStep(C.nodes[r].smrs[g0], n, r, g0, msg);
    WriteChanges(n, C, r, msg, trans);
    ProjectChanged(n, C, Step(n, C, FromClient(r, msg, trans)), r, g0, step.state,
                   R.Stamped(step.out, r, Guide(n).epoch), g);
  }

  lemma WriteSettles(n: nat, C: ClusterState, r: nat, msg: ClientMessage, trans: Transport)
    requires 1 <= n <= KEY_SPACE && Settled(n, C) && GroupsOk(n, C)
    requires IsWrite(n, msg) && Routed(n, FromClient(r, msg, trans))
    ensures Settled(n, Step(n, C, FromClient(r, msg, trans)))
  {
    var g0 := GroupOf(msg.keyHash);
    var step := OperationStep(C.nodes[r].smrs[g0], n, r, g0, msg);
    WriteChanges(n, C, r, msg, trans);
    SettledAfter(n, C, Step(n, C, FromClient(r, msg, trans)), r, g0, step.state,
                 R.Stamped(step.out, r, Guide(n).epoch));
  }

  // A read, a request for guidance, or an operation under another epoch.
  predicate IsQuiet(n: nat, ev: Event)
    requires n >= 1
  {
    ev.GuidanceAsked? || (ev.FromClient? && !IsWrite(n, ev.msg))
  }

  // One replica may have touched its store and written to a client; nothing else is different.
  ghost predicate OnlySent(n: nat, C: ClusterState, C': ClusterState)
  {
    && |C.nodes| == |C'.nodes| == |C.past| == n
    && C'.net == C.net && C'.past == C.past && C'.crashed == C.crashed
    && forall q :: 0 <= q < n ==>
         && C'.nodes[q].smrs == C.nodes[q].smrs && C'.nodes[q].pendings == C.nodes[q].pendings
         && C'.nodes[q].nextMsgs == C.nodes[q].nextMsgs && C'.nodes[q].applyEntries == C.nodes[q].applyEntries
         && forall key :: Fetch(C'.nodes[q].storage, key) == Fetch(C.nodes[q].storage, key)
  }

  lemma QuietOnlySends(n: nat, C: ClusterState, ev: Event)
    requires 1 <= n <= KEY_SPACE && Settled(n, C) && IsQuiet(n, ev)
    ensures OnlySent(n, C, Step(n, C, ev))
  {
    if ev.r < n {
      assert C.net + ToSet([]) == C.net;
    }
  }

  lemma QuietSettles(n: nat, C: ClusterState, C': ClusterState)
    requires 1 <= n <= KEY_SPACE && Settled(n, C) && OnlySent(n, C, C')
    ensures Settled(n, C')
  {
    forall g: nat, i: nat | g < KEY_SPACE
      ensures Registered(n, C', g, i)
    {
      assert Registered(n, C, g, i);
    }
  }

  // No group notices.
  lemma OtherClientStep(n: nat, C: ClusterState, ev: Event, g: nat)
    requires 1 <= n <= KEY_SPACE && g < KEY_SPACE && Settled(n, C) && IsQuiet(n, ev)
    ensures Settled(n, Step(n, C, ev))
    ensures Project(n, Step(n, C, ev), g) == R.Step(GroupConfig(n, g), Project(n, C, g), ProjectEvent(n, g, ev))
  {
    var C' := Step(n, C, ev);
    QuietOnlySends(n, C, ev);
    QuietSettles(n, C, C');
    assert Project(n, C', g).reps == Project(n, C, g).reps;
    assert ProjectEvent(n, g, ev) == SKIP;
    SkipDoesNothing(GroupConfig(n, g), Project(n, C, g));
  }

  // ---- Peer messages ----

  lemma InItsGroup(n: nat, C: ClusterState, m: GenericMessage)
    requires 1 <= n <= KEY_SPACE && Settled(n, C) && GroupsOk(n, C) && m in C.net
    ensures var c := GroupConfig(n, m.body.groupId);
            var P := Project(n, C, m.body.groupId);
            && m in P.net && R.MessageOk(c, P, m) && !R.Aborts(c, P, m) && m.epoch == Guide(n).epoch
            && C.nodes[m.to].smrs[m.body.groupId] == P.reps[m.to]
  {
    var g := m.body.groupId;
    var c, P := GroupConfig(n, g), Project(n, C, g);
    assert R.Inv(c, P) && m in P.net;
    if m.body.Append? {
      R.AppendDelivery(c, P, m);
    } else {
      R.ReplyDelivery(c, P, m);
    }
  }

  lemma AppendAtNode(k: Node, s: MState, m: GenericMessage)
    requires m.body.Append? && !PeerCrashes(k, s, m) && m.epoch == k.guide.epoch && s.nextMsgs == []
    ensures var g0 := m.body.groupId;
            var step := AppendStep(s.smrs[g0], g0, m.body, m.from);
            OnPeerMessage(k, s, m) == Served(s.(smrs := s.smrs[g0 := step.state]), Prepared(k, [] + step.out))
  {
  }

  lemma AppendChanges(n: nat, C: ClusterState, m: GenericMessage)
    requires 1 <= n <= KEY_SPACE && Settled(n, C) && GroupsOk(n, C) && m in C.net && m.body.Append?
    ensures m.to < n
    ensures var g0 := m.body.groupId;
            var C' := Step(n, C, FromPeer(m));
            && !AppendAborts(C.nodes[m.to].smrs[g0], m.body)
            && var step := AppendStep(C.nodes[m.to].smrs[g0], g0, m.body, m.from);
            && ChangedIn(n, C, C', m.to, g0, step.state, R.Stamped(step.out, m.to, Guide(n).epoch))
            && C'.nodes[m.to].pendings == C.nodes[m.to].pendings && C'.past == C.past
  {
    InItsGroup(n, C, m);
    var g0 := m.body.groupId;
    var step := AppendStep(C.nodes[m.to].smrs[g0], g0, m.body, m.from);
    SendingInGroup(NodeOf(n, m.to), step.out, g0);
    AppendAtNode(NodeOf(n, m.to), C.nodes[m.to], m);
    assert C.past[m.to := C.past[m.to]] == C.past;
  }

  lemma AppendSettles(n: nat, C: ClusterState, m: GenericMessage)
    requires 1 <= n <= KEY_SPACE && Settled(n, C) && GroupsOk(n, C) && m in C.net && m.body.Append?
    ensures Settled(n, Step(n, C, FromPeer(m)))
  {
    InItsGroup(n, C, m);
    AppendChanges(n, C, m);
    var g0, C' := m.body.groupId, Step(n, C, FromPeer(m));
    var step := AppendStep(C.nodes[m.to].smrs[g0], g0, m.body, m.from);
    SettledAfter(n, C, C', m.to, g0, step.state, R.Stamped(step.out, m.to, Guide(n).epoch));
  }

  lemma AppendStepsGroup(n: nat, C: ClusterState, m: GenericMessage, g: nat)
    requires 1 <= n <= KEY_SPACE && g < KEY_SPACE && Settled(n, C) && GroupsOk(n, C) && m in C.net && m.body.Append?
    ensures var ev := FromPeer(m);
            && Shaped(n, Step(n, C, ev))
            && Project(n, Step(n, C, ev), g) == R.Step(GroupConfig(n, g), Project(n, C, g), ProjectEvent(n, g, ev))
  {
    InItsGroup(n, C, m);
    AppendChanges(n, C, m);
    var g0, C' := m.body.groupId, Step(n, C, FromPeer(m));
    var step := AppendStep(C.nodes[m.to].smrs[g0], g0, m.body, m.from);
    ProjectChanged(n, C, C', m.to, g0, step.state, R.Stamped(step.out, m.to, Guide(n).epoch), g);
    if g != g0 {
      assert ProjectEvent(n, g, FromPeer(m)) == SKIP;
      SkipDoesNothing(GroupConfig(n, g), Project(n, C, g));
    }
  }

  // The entries a reply makes its replica apply are part of the owner's log.
  lemma ReplyBatch(n: nat, C: ClusterState, m: GenericMessage) returns (batch: seq<Entry>)
    requires 1 <= n <= KEY_SPACE && Settled(n, C) && GroupsOk(n, C) && m in C.net && m.body.AppendReply?
    ensures m.to < n && m.to == OwnerOf(n, m.body.groupId) && m.epoch == Guide(n).epoch
    ensures var s := C.nodes[m.to];
            && !PeerAborts(NodeOf(n, m.to), s, m)
            && batch == ReplyStep(s.smrs[m.body.groupId], n, m.body, m.from).applied
            && (forall e <- batch :: e in s.smrs[m.body.groupId].log && e.index in s.pendings)
  {
    InItsGroup(n, C, m);
    var g := m.body.groupId;
    R.ReplyDelivery(GroupConfig(n, g), Project(n, C, g), m);
    var s := C.nodes[m.to];
    batch := ReplyStep(s.smrs[g], n, m.body, m.from).applied;
    LoggedArePending(n, C, g);
  }

  lemma LoggedArePending(n: nat, C: ClusterState, g: nat)
    requires 1 <= n <= KEY_SPACE && Settled(n, C) && g < KEY_SPACE && WellIndexed(C.nodes[OwnerOf(n, g)].smrs[g].log)
    ensures forall e <- C.nodes[OwnerOf(n, g)].smrs[g].log :: e.index in C.nodes[OwnerOf(n, g)].pendings
  {
    var log := C.nodes[OwnerOf(n, g)].smrs[g].log;
    forall e <- log
      ensures e.index in C.nodes[OwnerOf(n, g)].pendings
    {
      var i :| 0 <= i < |log| && log[i] == e;
      assert 1 <= e.index <= |log| && Registered(n, C, g, e.index);
    }
  }

  lemma ReplyChanges(n: nat, C: ClusterState, m: GenericMessage) returns (batch: seq<Entry>)
    requires 1 <= n <= KEY_SPACE && Settled(n, C) && GroupsOk(n, C) && m in C.net && m.body.AppendReply?
    ensures m.to < n && m.to == OwnerOf(n, m.body.groupId) && m.epoch == Guide(n).epoch
    ensures !PeerCrashes(NodeOf(n, m.to), C.nodes[m.to], m)
    ensures var g0 := m.body.groupId;
            var step := ReplyStep(C.nodes[m.to].smrs[g0], n, m.body, m.from);
            var C' := Step(n, C, FromPeer(m));
            && ChangedIn(n, C, C', m.to, g0, step.state, {})
            && step.out == [] && step.applied == batch
            && step.state.log == C.nodes[m.to].smrs[g0].log
            && C'.nodes[m.to].pendings == C.nodes[m.to].pendings
            && (forall e <- batch :: e in C.nodes[m.to].smrs[g0].log && e.index in C.nodes[m.to].pendings)
            && C'.past == C.past[m.to := C.past[m.to].(
                 answers := C.past[m.to].answers + Answers(C.nodes[m.to].pendings, g0, batch))]
            && C'.nodes[m.to]
               == MaybeApply(NodeOf(n, m.to), AppendReplyAt(NodeOf(n, m.to), C.nodes[m.to], m)).(nextMsgs := [])
  {
    batch := ReplyBatch(n, C, m);
    var s := C.nodes[m.to];
    assert s.applyEntries + batch == batch;
    assert Prepared(NodeOf(n, m.to), s.nextMsgs) == [];
    assert C.net + {} == C.net;
  }

  lemma {:induction false} AppliedMore(answers: seq<Answer>, pendings: map<nat, Transport>, g0: nat,
                                       batch: seq<Entry>, g: nat)
    requires forall e <- batch :: e.index in pendings
    ensures AppliedIn(answers + Answers(pendings, g0, batch), g)
            == AppliedIn(answers, g) + if g == g0 then batch else []
  {
    if batch == [] {
      assert answers + Answers(pendings, g0, batch) == answers;
    } else {
      var front := batch[..|batch| - 1];
      AppliedMore(answers, pendings, g0, front, g);
      var all := answers + Answers(pendings, g0, batch);
      assert all[..|all| - 1] == answers + Answers(pendings, g0, front);
      assert batch == front + [batch[|batch| - 1]];
    }
  }

  lemma ReplySettles(n: nat, C: ClusterState, m: GenericMessage)
    requires 1 <= n <= KEY_SPACE && Settled(n, C) && GroupsOk(n, C) && m in C.net && m.body.AppendReply?
    ensures Settled(n, Step(n, C, FromPeer(m)))
  {
    InItsGroup(n, C, m);
    var batch := ReplyChanges(n, C, m);
    var g0, C' := m.body.groupId, Step(n, C, FromPeer(m));
    SettledAfter(n, C, C', m.to, g0, ReplyStep(C.nodes[m.to].smrs[g0], n, m.body, m.from).state, {});
  }

  lemma ReplyApplies(n: nat, C: ClusterState, m: GenericMessage, g: nat) returns (batch: seq<Entry>)
    requires 1 <= n <= KEY_SPACE && g < KEY_SPACE && Settled(n, C) && GroupsOk(n, C)
    requires m in C.net && m.body.AppendReply?
    ensures m.to < n && m.to == OwnerOf(n, m.body.groupId)
    ensures !PeerCrashes(NodeOf(n, m.to), C.nodes[m.to], m) && m.epoch == Guide(n).epoch
    ensures var C' := Step(n, C, FromPeer(m));
            && batch == ReplyStep(C.nodes[m.to].smrs[m.body.groupId], n, m.body, m.from).applied
            && |C'.past| == n
            && AppliedIn(C'.past[OwnerOf(n, g)].answers, g)
               == AppliedIn(C.past[OwnerOf(n, g)].answers, g) + if g == m.body.groupId then batch else []
  {
    batch := ReplyChanges(n, C, m);
    AppliedMore(C.past[m.to].answers, C.nodes[m.to].pendings, m.body.groupId, batch, g);
  }

  // Group g seen before and after a reply of its own, or of another group.
  lemma ReplyProjects(n: nat, C: ClusterState, m: GenericMessage, g: nat)
    requires 1 <= n <= KEY_SPACE && g < KEY_SPACE && Settled(n, C) && GroupsOk(n, C)
    requires m in C.net && m.body.AppendReply?
    ensures Shaped(n, Step(n, C, FromPeer(m))) && m.to < n && m.body.groupId < KEY_SPACE && m.from < n
    ensures !PeerAborts(NodeOf(n, m.to), C.nodes[m.to], m) && m.epoch == Guide(n).epoch
    ensures var g0 := m.body.groupId;
            var step := ReplyStep(C.nodes[m.to].smrs[g0], n, m.body, m.from);
            var P, P' := Project(n, C, g), Project(n, Step(n, C, FromPeer(m)), g);
            && step.out == []
            && P'.net == P.net && P'.aborted == P.aborted
            && P'.reps == (if g == g0 then P.reps[m.to := step.state] else P.reps)
            && P'.applied == P.applied + if g == g0 then step.applied else []
  {
    InItsGroup(n, C, m);
    var batch := ReplyApplies(n, C, m, g);
    batch := ReplyChanges(n, C, m);
    var g0, C' := m.body.groupId, Step(n, C, FromPeer(m));
    ProjectChanged(n, C, C', m.to, g0, ReplyStep(C.nodes[m.to].smrs[g0], n, m.body, m.from).state, {}, g);
  }

  lemma ReplyStepsGroup(n: nat, C: ClusterState, m: GenericMessage, g: nat)
    requires 1 <= n <= KEY_SPACE && g < KEY_SPACE && Settled(n, C) && GroupsOk(n, C)
    requires m in C.net && m.body.AppendReply?
    ensures var ev := FromPeer(m);
            && Shaped(n, Step(n, C, ev))
            && Project(n, Step(n, C, ev), g) == R.Step(GroupConfig(n, g), Project(n, C, g), ProjectEvent(n, g, ev))
  {
    ReplyProjects(n, C, m, g);
    if g == m.body.groupId {
      InItsGroup(n, C, m);
      R.ReplyGrows(GroupConfig(n, g), Project(n, C, g), m);
    } else {
      assert ProjectEvent(n, g, FromPeer(m)) == SKIP;
    }
  }

  lemma StepRefines(n: nat, C: ClusterState, ev: Event)
    requires 1 <= n <= KEY_SPACE && Settled(n, C) && GroupsOk(n, C) && Routed(n, ev)
    ensures Settled(n, Step(n, C, ev))
    ensures forall g: nat :: g < KEY_SPACE ==>
              Project(n, Step(n, C, ev), g) == R.Step(GroupConfig(n, g), Project(n, C, g), ProjectEvent(n, g, ev))
  {
    StepSettles(n, C, ev);
    forall g: nat | g < KEY_SPACE
      ensures Project(n, Step(n, C, ev), g) == R.Step(GroupConfig(n, g), Project(n, C, g), ProjectEvent(n, g, ev))
    {
      StepRefinesGroup(n, C, ev, g);
    }
  }

  lemma StepSettles(n: nat, C: ClusterState, ev: Event)
    requires 1 <= n <= KEY_SPACE && Settled(n, C) && GroupsOk(n, C) && Routed(n, ev)
    ensures Settled(n, Step(n, C, ev))
  {
    match ev
    case FromClient(r, msg, trans) =>
      if IsWrite(n, msg) { WriteSettles(n, C, r, msg, trans); } else { OtherClientStep(n, C, ev, 0); }
    case GuidanceAsked(_, _) => OtherClientStep(n, C, ev, 0);
    case FromPeer(m) =>
      if m in C.net {
        if m.body.Append? { AppendSettles(n, C, m); } else { ReplySettles(n, C, m); }
      }
  }

  lemma StepRefinesGroup(n: nat, C: ClusterState, ev: Event, g: nat)
    requires 1 <= n <= KEY_SPACE && Settled(n, C) && GroupsOk(n, C) && Routed(n, ev) && g < KEY_SPACE
    ensures Shaped(n, Step(n, C, ev))
    ensures Project(n, Step(n, C, ev), g) == R.Step(GroupConfig(n, g), Project(n, C, g), ProjectEvent(n, g, ev))
  {
    match ev
    case FromClient(r, msg, trans) =>
      if IsWrite(n, msg) { WriteStep(n, C, r, msg, trans, g); } else { OtherClientStep(n, C, ev, g); }
    case GuidanceAsked(_, _) => OtherClientStep(n, C, ev, g);
    case FromPeer(m) =>
      if m in C.net {
        if m.body.Append? { AppendStepsGroup(n, C, m, g); } else { ReplyStepsGroup(n, C, m, g); }
      } else {
        assert m !in Project(n, C, g).net;
      }
  }

  // A step that is nothing to the group.
  lemma OtherGroupStep(n: nat, C: ClusterState, ev: Event, g: nat)
    requires 1 <= n <= KEY_SPACE && Settled(n, C) && GroupsOk(n, C) && Routed(n, ev) && g < KEY_SPACE
    requires ProjectEvent(n, g, ev) == SKIP
    ensures Shaped(n, Step(n, C, ev)) && Project(n, Step(n, C, ev), g) == Project(n, C, g)
  {
    StepRefinesGroup(n, C, ev, g);
    SkipDoesNothing(GroupConfig(n, g), Project(n, C, g));
  }

  lemma InitialRefines(n: nat)
    requires 1 <= n <= KEY_SPACE
    ensures Settled(n, InitialCluster(n))
    ensures forall g: nat :: g < KEY_SPACE ==> Project(n, InitialCluster(n), g) == R.Initial(GroupConfig(n, g))
  {
    forall g: nat | g < KEY_SPACE
      ensures Project(n, InitialCluster(n), g) == R.Initial(GroupConfig(n, g))
    {
      assert Project(n, InitialCluster(n), g).reps == R.Initial(GroupConfig(n, g)).reps;
    }
  }

  lemma LastOfGroupRun(n: nat, g: nat, events: seq<Event>)
    requires 1 <= n <= KEY_SPACE && g < KEY_SPACE && events != []
    ensures R.Run(GroupConfig(n, g), ProjectEvents(n, g, events))
            == R.Step(GroupConfig(n, g), R.Run(GroupConfig(n, g), ProjectEvents(n, g, events[..|events| - 1])),
                      ProjectEvent(n, g, events[|events| - 1]))
  {
    assert ProjectEvents(n, g, events)[..|events| - 1] == ProjectEvents(n, g, events[..|events| - 1]);
  }

  /** Refinement: when clients send operations to the owner of their key, what a run of the cluster does
      to any one of the 256 groups is a run of that group alone, event by event.  Everything proved of
      Replication therefore holds of every group, and no run of the cluster crashes. */
  lemma {:induction false} ClusterRefinesEveryGroup(n: nat, events: seq<Event>)
    requires 1 <= n <= KEY_SPACE && AllRouted(n, events)
    ensures Settled(n, Run(n, events)) && GroupsOk(n, Run(n, events)) && !Run(n, events).crashed
    ensures forall g: nat :: g < KEY_SPACE ==>
              Project(n, Run(n, events), g) == R.Run(GroupConfig(n, g), ProjectEvents(n, g, events))
  {
    if events == [] {
      InitialRefines(n);
    } else {
      var front, last := events[..|events| - 1], events[|events| - 1];
      ClusterRefinesEveryGroup(n, front);
      StepRefines(n, Run(n, front), last);
      forall g: nat | g < KEY_SPACE
        ensures Project(n, Run(n, events), g) == R.Run(GroupConfig(n, g), ProjectEvents(n, g, events))
      {
        LastOfGroupRun(n, g, events);
      }
    }
    RunsAreOk(n, Run(n, events), events);
  }

  // Runs of the groups satisfy their invariant.
  lemma RunsAreOk(n: nat, C: ClusterState, events: seq<Event>)
    requires 1 <= n <= KEY_SPACE && Shaped(n, C)
    requires forall g: nat :: g < KEY_SPACE ==>
               Project(n, C, g) == R.Run(GroupConfig(n, g), ProjectEvents(n, g, events))
    ensures GroupsOk(n, C) && !C.crashed
  {
    forall g: nat | g < KEY_SPACE
      ensures R.Inv(GroupConfig(n, g), Project(n, C, g))
    {
      R.RunInv(GroupConfig(n, g), ProjectEvents(n, g, events));
    }
    assert R.Inv(GroupConfig(n, 0), Project(n, C, 0));
  }
}
