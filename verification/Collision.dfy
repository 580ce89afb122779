/** A run in which a client is sent the reply to another client's operation: two writes to different groups of one
    replica, then the delivery of the first one's append message and of its acknowledgement. */
module Collision {
  import opened Routing
  import opened Messages
  import opened ReplicatedLog
  import opened EntryVotes
  import opened SmrSteps
  import opened MorphlingSteps
  import opened Cluster
  import opened Replies
  import opened SentReplies
  import R = Replication

  const KEY_A := KeyHash(0)
  const KEY_B := KeyHash(256)

  function WriteMsg(key: KeyHash): ClientMessage
  {
    ClientMessage(1, key, Operation(WRITE, key, []))
  }

  // Two writes to different groups of replica 0, from clients 7 and 8.
  const TWO_WRITES := [FromClient(0, WriteMsg(KEY_A), 7), FromClient(0, WriteMsg(KEY_B), 8)]

  lemma TwoReplicas()
    ensures Guide(2).epoch == 1 && OwnerOf(2, GroupOf(KEY_A)) == 0 && OwnerOf(2, GroupOf(KEY_B)) == 0
    ensures GroupOf(KEY_A) == 0 && GroupOf(KEY_B) == 1
    ensures AllRouted(2, TWO_WRITES)
  {
    assert GroupOf(KEY_A) == 0 && GroupOf(KEY_B) == 1;
    var a := OwnerOfPos(KEY_SPACE, 2, 0 as bv8);
    var b := OwnerOfPos(KEY_SPACE, 2, 1 as bv8);
  }

  // The entry of client 7, the message that carries it to replica 1, and the acknowledgement.
  const ENTRY := Entry(1, 1, Operation(WRITE, KEY_A, []))
  const ASK := GenericMessage(1, 0, 1, Append(0, 0, 0, 0, [ENTRY]))
  const ACK := GenericMessage(0, 1, 1, AppendReply(true, 0, 1))

  const THREE_EVENTS := TWO_WRITES + [FromPeer(ASK)]
  const COLLISION := THREE_EVENTS + [FromPeer(ACK)]

  lemma AcceptedWrite(n: nat, C: ClusterState, r: nat, msg: ClientMessage, trans: Transport)
    requires 1 <= n <= KEY_SPACE && Shaped(n, C) && r < n && IsWrite(n, msg)
    ensures Shaped(n, Step(n, C, FromClient(r, msg, trans)))
    ensures Step(n, C, FromClient(r, msg, trans)).past[r].writes
            == C.past[r].writes + [Write(GroupOf(msg.keyHash), |C.nodes[r].smrs[GroupOf(msg.keyHash)].log| + 1, trans)]
  {
  }

  lemma SharedIndex(t: Transport, u: Transport)
    ensures LatestAt([Write(0, 1, t), Write(1, 1, u)], 1) == 2 && CreatorAt([Write(0, 1, t), Write(1, 1, u)], 0, 1) == 0
  {
    LatestAfter([Write(0, 1, t)], Write(1, 1, u), 1);
    assert [Write(0, 1, t), Write(1, 1, u)] == [Write(0, 1, t)] + [Write(1, 1, u)];
  }

  lemma FirstWrite(n: nat, r: nat, msg: ClientMessage, trans: Transport)
    requires 1 <= n <= KEY_SPACE && r < n && IsWrite(n, msg)
    ensures var C := Step(n, InitialCluster(n), FromClient(r, msg, trans));
            && Shaped(n, C) && C.past[r].writes == [Write(GroupOf(msg.keyHash), 1, trans)]
            && forall g: nat :: g < KEY_SPACE && g != GroupOf(msg.keyHash) ==> C.nodes[r].smrs[g].log == []
  {
    AcceptedWrite(n, InitialCluster(n), r, msg, trans);
  }

  lemma AfterFirstWrite()
    ensures var C := Run(2, TWO_WRITES[..1]);
            && Shaped(2, C) && C.past[0].writes == [Write(0, 1, 7)] && C.nodes[0].smrs[1].log == []
  {
    TwoReplicas();
    var first := TWO_WRITES[..1];
    assert first[..0] == [] && Run(2, first) == Step(2, InitialCluster(2), first[0]);
    FirstWrite(2, 0, WriteMsg(KEY_A), 7);
  }

  lemma TwoWritesRecorded()
    ensures |Run(2, TWO_WRITES).nodes| == |Run(2, TWO_WRITES).past| == 2
    ensures Run(2, TWO_WRITES).past[0].writes == [Write(0, 1, 7), Write(1, 1, 8)]
  {
    TwoReplicas();
    AfterFirstWrite();
    assert Run(2, TWO_WRITES) == Step(2, Run(2, TWO_WRITES[..1]), TWO_WRITES[1]);
    AcceptedWrite(2, Run(2, TWO_WRITES[..1]), 0, WriteMsg(KEY_B), 8);
  }

  lemma AfterTwoWrites()
    ensures var C := Run(2, TWO_WRITES);
            && |C.nodes| == |C.past| == 2
            && C.past[0].writes == [Write(0, 1, 7), Write(1, 1, 8)]
            && 1 in C.nodes[0].pendings && C.nodes[0].pendings[1] == 8
            && LatestAt(C.past[0].writes, 1) - 1 != CreatorAt(C.past[0].writes, 0, 1)
  {
    TwoReplicas();
    TwoWritesRecorded();
    RunTables(2, TWO_WRITES);
    assert TableOk(Run(2, TWO_WRITES), 0);
    assert TableHas(Run(2, TWO_WRITES).past[0].writes, Run(2, TWO_WRITES).nodes[0].pendings, 1);
    SharedIndex(7, 8);
  }

  // ---- Group 0 alone ----

  const GROUP := R.Config(2, 0, 0, 1)

  lemma GroupAfterWrite()
    ensures var s := R.Step(GROUP, R.Initial(GROUP), R.Propose(WriteMsg(KEY_A)));
            && s.reps == [SmrState([ENTRY], 0, VoteState(map[1 := {0}], {})), FRESH]
            && ASK in s.net && !s.aborted && s.applied == []
  {
    var s := R.Step(GROUP, R.Initial(GROUP), R.Propose(WriteMsg(KEY_A)));
    var out := Broadcast(2, 0, AnnounceLast([ENTRY], 0, 0));
    assert Broadcast(0, 0, AnnounceLast([ENTRY], 0, 0)) == [];
    assert Broadcast(1, 0, AnnounceLast([ENTRY], 0, 0)) == [];
    assert out == [Unstamped(1, Append(0, 0, 0, 0, [ENTRY]))];
    assert R.Stamp(out[0], 0, 1) == ASK && ASK in R.Stamped(out, 0, 1);
    assert Appended([], 1, ENTRY.data) == [ENTRY];
    assert NO_VOTES.VotersOf(1) + {0} == {0};
    assert CastVote(NO_VOTES, 2, 0, 1).state == VoteState(map[1 := {0}], {});
    assert R.Initial(GROUP).reps == [FRESH, FRESH];
  }

  lemma GroupAfterAsk(s: R.System)
    requires s.reps == [SmrState([ENTRY], 0, VoteState(map[1 := {0}], {})), FRESH] && ASK in s.net
    ensures var s' := R.Step(GROUP, s, R.Deliver(ASK));
            && |s'.reps| == 2 && s'.reps[0] == s.reps[0] && ACK in s'.net
  {
    R.PrefixReceives([], [ENTRY], 0);
    var step := AppendStep(FRESH, 0, ASK.body, 0);
    assert step.out == [ReplyTo(0, true, 0, 1)];
    assert R.Stamp(step.out[0], 1, 1) == ACK;
  }

  lemma RunOneMore(c: R.Config, gevents: seq<R.Event>, ev: R.Event)
    ensures R.Run(c, gevents + [ev]) == R.Step(c, R.Run(c, gevents), ev)
  {
    assert (gevents + [ev])[..|gevents|] == gevents;
  }

  const PROPOSED := [R.Propose(WriteMsg(KEY_A)), SKIP]

  lemma RunOfTwo(c: R.Config, a: R.Event, b: R.Event)
    ensures R.Run(c, [a, b]) == R.Step(c, R.Step(c, R.Initial(c), a), b)
  {
    RunOneMore(c, [], a);
    RunOneMore(c, [a], b);
    assert [] + [a] == [a] && [a] + [b] == [a, b];
  }

  lemma GroupAfterTwo()
    ensures var s := R.Run(GROUP, PROPOSED);
            && s.reps == [SmrState([ENTRY], 0, VoteState(map[1 := {0}], {})), FRESH]
            && ASK in s.net
  {
    RunOfTwo(GROUP, R.Propose(WriteMsg(KEY_A)), SKIP);
    GroupAfterWrite();
    SkipDoesNothing(GROUP, R.Step(GROUP, R.Initial(GROUP), R.Propose(WriteMsg(KEY_A))));
  }

  lemma GroupRun()
    ensures var s := R.Run(GROUP, PROPOSED + [R.Deliver(ASK)]);
            && |s.reps| == 2 && s.reps[0] == SmrState([ENTRY], 0, VoteState(map[1 := {0}], {})) && ACK in s.net
  {
    GroupAfterTwo();
    RunOneMore(GROUP, PROPOSED, R.Deliver(ASK));
    GroupAfterAsk(R.Run(GROUP, PROPOSED));
  }

  // The acknowledgement completes the entry, which is committed and handed over.
  lemma AckCommits()
    ensures var s := SmrState([ENTRY], 0, VoteState(map[1 := {0}], {}));
            && !ReplyAborts(s, 2, ACK.body, 1) && ReplyStep(s, 2, ACK.body, 1).applied == [ENTRY]
  {
    var s := SmrState([ENTRY], 0, VoteState(map[1 := {0}], {}));
    assert s.votes.VotersOf(1) + {1} == {0, 1};
    assert [ENTRY][0..1] == [ENTRY];
  }

  // ---- The whole cluster ----

  lemma GroupOfRun()
    ensures GroupConfig(2, 0) == GROUP
    ensures ProjectEvents(2, 0, TWO_WRITES) == PROPOSED
    ensures ProjectEvents(2, 0, THREE_EVENTS) == PROPOSED + [R.Deliver(ASK)]
  {
    TwoReplicas();
  }

  lemma NothingSentYet()
    ensures Settled(2, Run(2, THREE_EVENTS)) && ACK in Run(2, THREE_EVENTS).net
    ensures Run(2, THREE_EVENTS).nodes[0].sent == []
    ensures Run(2, THREE_EVENTS).nodes[0].smrs[0] == SmrState([ENTRY], 0, VoteState(map[1 := {0}], {}))
    ensures Run(2, THREE_EVENTS).past[0].writes == [Write(0, 1, 7), Write(1, 1, 8)]
  {
    TwoReplicas();
    GroupOfRun();
    GroupAfterTwo();
    GroupRun();
    AfterTwoWrites();
    ClusterRefinesEveryGroup(2, TWO_WRITES);
    ClusterRefinesEveryGroup(2, THREE_EVENTS);
    var C, C' := Run(2, TWO_WRITES), Run(2, THREE_EVENTS);
    assert THREE_EVENTS[..2] == TWO_WRITES && C' == Step(2, C, FromPeer(ASK));
    assert ASK in Project(2, C, 0).net && ACK in Project(2, C', 0).net;
    assert Project(2, C', 0).reps[0] == C'.nodes[0].smrs[0];
    AppendChanges(2, C, ASK);
    NothingSentForWrites();
    assert C'.nodes[0] == C.nodes[0];
  }

  lemma NothingSentForWrites()
    ensures |Run(2, TWO_WRITES).nodes| == 2 && Run(2, TWO_WRITES).nodes[0].sent == []
  {
    TwoReplicas();
    var first := TWO_WRITES[..1];
    assert first == [FromClient(0, WriteMsg(KEY_A), 7)] && TWO_WRITES == first + [FromClient(0, WriteMsg(KEY_B), 8)];
    assert forall ev <- first :: ev in TWO_WRITES;
    ClientAnsweredAtOnce(2, [], FromClient(0, WriteMsg(KEY_A), 7), 0);
    assert [] + first == first;
    ClientAnsweredAtOnce(2, first, FromClient(0, WriteMsg(KEY_B), 8), 0);
  }

  lemma AckIsAnswered()
    ensures |Run(2, THREE_EVENTS).nodes| == 2
    ensures var C' := Step(2, Run(2, THREE_EVENTS), FromPeer(ACK));
            && |C'.nodes| == 2 && |C'.nodes[0].sent| == 1
            && IsReplyTo(NodeOf(2, 0), C'.nodes[0].sent[0], ENTRY, 8)
  {
    ThreeRouted();
    NothingSentYet();
    var batch, replies := AnswersGoToLatestWrite(2, THREE_EVENTS, ACK);
    AckCommits();
    assert batch == [ENTRY] && [] + replies == replies;
    SharedIndex(7, 8);
  }

  lemma ThreeRouted()
    ensures AllRouted(2, THREE_EVENTS) && AllRouted(2, COLLISION)
  {
    TwoReplicas();
    assert forall ev <- COLLISION :: ev in TWO_WRITES || ev.FromPeer?;
  }

  lemma AckKeepsWrites()
    ensures |Run(2, THREE_EVENTS).past| == |Step(2, Run(2, THREE_EVENTS), FromPeer(ACK)).past| == 2
    ensures Step(2, Run(2, THREE_EVENTS), FromPeer(ACK)).past[0].writes == [Write(0, 1, 7), Write(1, 1, 8)]
  {
    ThreeRouted();
    NothingSentYet();
    ClusterRefinesEveryGroup(2, THREE_EVENTS);
    StepRecords(2, Run(2, THREE_EVENTS), FromPeer(ACK), 0);
  }

  /** With writes to two groups a client can be answered for another client's operation: both writes get index 1,
      and when the entry of client 7 is applied, the one reply ever sent to a client names its key and goes out on
      the connection of client 8. */
  lemma TwoGroupsCollide()
    ensures AllRouted(2, COLLISION)
    ensures var C := Run(2, COLLISION);
            && |C.nodes| == |C.past| == 2
            && C.past[0].writes == [Write(0, 1, 7), Write(1, 1, 8)]
            && |C.nodes[0].sent| == 1
            && IsReplyTo(NodeOf(2, 0), C.nodes[0].sent[0], ENTRY, 8)
            && !ReachesCreator(C.past[0].writes, 0, 1, 8)
            && !HeldByCreator(C.past[0].writes, 0, 1)
  {
    ThreeRouted();
    AckIsAnswered();
    AckKeepsWrites();
    assert COLLISION[..3] == THREE_EVENTS && COLLISION[3] == FromPeer(ACK);
    SharedIndex(7, 8);
  }
}
