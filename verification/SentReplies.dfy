/** What replicas write to clients, over whole runs: which replies go out, for which entries and on which
    connections. */
module SentReplies {
  import opened Routing
  import opened Messages
  import opened ReplicatedLog
  import opened EntryVotes
  import opened SmrSteps
  import opened MorphlingSteps
  import opened Cluster
  import opened Replies
  import R = Replication
  import Safety = ReplicationSafety
  import KeyValue

  // The reply to one applied entry: empty for a write, whatever the store holds otherwise.
  predicate IsReplyTo(k: Node, send: ClientSend, e: Entry, trans: Transport)
  {
    && send.trans == trans && send.msg.ClientReply? && send.msg.success
    && send.msg.from == k.me && send.msg.guidance == k.guide && send.msg.keyHash == e.data.keyHash
    && (e.data.opType == WRITE ==> send.msg.replyData == [])
  }

  lemma {:induction false} ApplyingSends(k: Node, s: MState, entries: seq<Entry>) returns (replies: seq<ClientSend>)
    requires AllPending(s, entries)
    ensures ApplyBatch(k, s, entries).sent == s.sent + replies && |replies| == |entries|
    ensures forall i :: 0 <= i < |entries| ==> IsReplyTo(k, replies[i], entries[i], s.pendings[entries[i].index])
  {
    if entries == [] {
      replies := [];
    } else {
      var front := ApplyingSends(k, s, entries[..|entries| - 1]);
      var before := ApplyBatch(k, s, entries[..|entries| - 1]);
      var after := ApplyOne(k, before, entries[|entries| - 1]);
      replies := front + [after.sent[|after.sent| - 1]];
    }
  }

  // One reply for each answer, in order, on its connection.
  predicate Answering(k: Node, replies: seq<ClientSend>, answers: seq<Answer>)
  {
    && |replies| == |answers|
    && forall i :: 0 <= i < |answers| ==> IsReplyTo(k, replies[i], answers[i].entry, answers[i].trans)
  }

  // ---- What one event makes a replica write ----

  function SentBy(n: nat, C: ClusterState, ev: Event, r: nat): seq<ClientSend>
    requires n >= 1 && r < |C.nodes|
  {
    var C' := Step(n, C, ev);
    if r < |C'.nodes| && |C.nodes[r].sent| <= |C'.nodes[r].sent|
    then C'.nodes[r].sent[|C.nodes[r].sent|..] else []
  }

  // What a client's message makes it write at once: guidance, or the value read; nothing for a write.
  function Direct(n: nat, C: ClusterState, ev: Event, r: nat): seq<ClientSend>
    requires n >= 1 && r < |C.nodes|
  {
    match ev
    case FromClient(q, msg, trans) =>
      if q != r || IsWrite(n, msg) then []
      else if msg.epoch != 1 then [ClientSend(trans, GuidanceOut(r, 3, Guide(n)))]
      else
        var value := if msg.keyHash in C.nodes[r].storage then C.nodes[r].storage[msg.keyHash] else [];
        [ClientSend(trans, ClientReply(r, true, Guide(n), msg.keyHash, value))]
    case GuidanceAsked(q, trans) => if q != r then [] else [ClientSend(trans, GuidanceOut(r, 3, Guide(n)))]
    case FromPeer(_) => []
  }

  // Nothing written is taken back; a client's message is answered at once or not at all; and a peer's message
  // makes the replica write the replies to what it newly applies.
  ghost predicate WritesOut(n: nat, C: ClusterState, ev: Event, r: nat)
    requires n >= 1 && r < |C.nodes| && r < |C.past|
  {
    var C' := Step(n, C, ev);
    && |C'.nodes| == |C'.past| == n && r < n
    && C.nodes[r].sent <= C'.nodes[r].sent && C.past[r].answers <= C'.past[r].answers
    && if ev.FromPeer?
       then Answering(NodeOf(n, r), SentBy(n, C, ev, r), C'.past[r].answers[|C.past[r].answers|..])
       else SentBy(n, C, ev, r) == Direct(n, C, ev, r) && C'.past[r].answers == C.past[r].answers
  }

  lemma ClientWritesOut(n: nat, C: ClusterState, ev: Event, r: nat)
    requires 1 <= n <= KEY_SPACE && Settled(n, C) && !ev.FromPeer? && r < n
    ensures WritesOut(n, C, ev, r)
  {
    var sent, C' := C.nodes[r].sent, Step(n, C, ev);
    assert C'.nodes[r].sent == sent + Direct(n, C, ev, r);
  }

  lemma AppendWritesOut(n: nat, C: ClusterState, m: GenericMessage, r: nat)
    requires 1 <= n <= KEY_SPACE && Settled(n, C) && GroupsOk(n, C) && m in C.net && m.body.Append? && r < n
    ensures WritesOut(n, C, FromPeer(m), r)
  {
    AppendChanges(n, C, m);
    assert Step(n, C, FromPeer(m)).nodes[r].sent == C.nodes[r].sent;
  }

  // Applying the batch, at the replica a reply reaches.
  lemma BatchWritesOut(k: Node, s: MState, m: GenericMessage, batch: seq<Entry>) returns (replies: seq<ClientSend>)
    requires m.body.AppendReply? && m.epoch == k.guide.epoch && s.applyEntries == [] && !PeerCrashes(k, s, m)
    requires batch == ReplyStep(s.smrs[m.body.groupId], k.n, m.body, m.from).applied
    requires forall e <- batch :: e.index in s.pendings
    ensures MaybeApply(k, AppendReplyAt(k, s, m)).sent == s.sent + replies
    ensures Answering(k, replies, Answers(s.pendings, m.body.groupId, batch))
  {
    var s' := AppendReplyAt(k, s, m);
    assert s'.applyEntries == batch;
    replies := ApplyingSends(k, s', batch);
  }

  lemma ReplyWritesOut(n: nat, C: ClusterState, m: GenericMessage, r: nat)
    requires 1 <= n <= KEY_SPACE && Settled(n, C) && GroupsOk(n, C) && m in C.net && m.body.AppendReply? && r < n
    ensures WritesOut(n, C, FromPeer(m), r)
  {
    var batch := ReplyChanges(n, C, m);
    var C' := Step(n, C, FromPeer(m));
    if r == m.to {
      var replies := BatchWritesOut(NodeOf(n, r), C.nodes[r], m, batch);
      assert C'.nodes[r].sent == C.nodes[r].sent + replies;
      assert C'.past[r].answers == C.past[r].answers + Answers(C.nodes[r].pendings, m.body.groupId, batch);
    } else {
      assert C'.nodes[r] == C.nodes[r] && C'.past[r] == C.past[r];
    }
  }

  lemma StepWritesOut(n: nat, C: ClusterState, ev: Event, r: nat)
    requires 1 <= n <= KEY_SPACE && Settled(n, C) && GroupsOk(n, C) && r < n
    ensures WritesOut(n, C, ev, r)
  {
    if !ev.FromPeer? {
      ClientWritesOut(n, C, ev, r);
    } else if ev.m !in C.net {
      assert Step(n, C, ev) == C;
    } else {
      InItsGroup(n, C, ev.m);
      if ev.m.body.Append? {
        AppendWritesOut(n, C, ev.m, r);
      } else {
        ReplyWritesOut(n, C, ev.m, r);
      }
    }
  }

  // ---- What a run makes a replica write ----

  // Everything, event by event.
  function Written(n: nat, events: seq<Event>, r: nat): seq<ClientSend>
    requires n >= 1
  {
    if events == [] then []
    else
      var front := events[..|events| - 1];
      Written(n, front, r) + if r < |Run(n, front).nodes| then SentBy(n, Run(n, front), events[|events| - 1], r) else []
  }

  // The part written on account of peer messages.
  function EntryReplies(n: nat, events: seq<Event>, r: nat): seq<ClientSend>
    requires n >= 1
  {
    if events == [] then []
    else
      var front, last := events[..|events| - 1], events[|events| - 1];
      EntryReplies(n, front, r)
      + if last.FromPeer? && r < |Run(n, front).nodes| then SentBy(n, Run(n, front), last, r) else []
  }

  lemma AnsweringMore(k: Node, replies: seq<ClientSend>, more: seq<ClientSend>, before: seq<Answer>, after: seq<Answer>)
    requires before <= after && Answering(k, replies, before) && Answering(k, more, after[|before|..])
    ensures Answering(k, replies + more, after)
  {
    forall i | 0 <= i < |after|
      ensures IsReplyTo(k, (replies + more)[i], after[i].entry, after[i].trans)
    {
      if i < |before| {
        assert after[i] == before[i];
      } else {
        assert after[i] == after[|before|..][i - |before|];
      }
    }
  }

  lemma WritesOutMore(n: nat, C: ClusterState, ev: Event, r: nat, replies: seq<ClientSend>)
    requires n >= 1 && r < |C.nodes| && r < |C.past| && WritesOut(n, C, ev, r)
    requires Answering(NodeOf(n, r), replies, C.past[r].answers)
    ensures Step(n, C, ev).nodes[r].sent == C.nodes[r].sent + SentBy(n, C, ev, r)
    ensures Answering(NodeOf(n, r), replies + if ev.FromPeer? then SentBy(n, C, ev, r) else [],
                      Step(n, C, ev).past[r].answers)
  {
    AnsweringMore(NodeOf(n, r), replies, if ev.FromPeer? then SentBy(n, C, ev, r) else [],
                  C.past[r].answers, Step(n, C, ev).past[r].answers);
  }

  /** Nothing is written but what the events account for; a client's message is answered at once or, when it is
      a write, not at all; and the replies that peer messages bring about are one for each answer recorded, in
      order, on that answer's connection. */
  lemma {:induction false} RepliesMatchRecord(n: nat, events: seq<Event>, r: nat)
    requires 1 <= n <= KEY_SPACE && AllRouted(n, events) && r < n
    ensures Settled(n, Run(n, events)) && Run(n, events).nodes[r].sent == Written(n, events, r)
    ensures Answering(NodeOf(n, r), EntryReplies(n, events, r), Run(n, events).past[r].answers)
  {
    ClusterRefinesEveryGroup(n, events);
    if events == [] {
    } else {
      var front, last := events[..|events| - 1], events[|events| - 1];
      assert forall ev <- front :: ev in events;
      RepliesMatchRecord(n, front, r);
      ClusterRefinesEveryGroup(n, front);
      var C := Run(n, front);
      StepWritesOut(n, C, last, r);
      WritesOutMore(n, C, last, r, EntryReplies(n, front, r));
    }
  }

  // The guidance a message to a client carries.
  function GuidanceIn(msg: ClientOut): Guidance
  {
    match msg
    case ClientReply(_, _, guidance, _, _) => guidance
    case GuidanceOut(_, _, guide) => guide
  }

  lemma OnlyInitialGuidanceIn(n: nat, C: ClusterState, ev: Event, r: nat)
    requires n >= 1 && r < |C.nodes| && r < |C.past| && WritesOut(n, C, ev, r)
    ensures forall send <- SentBy(n, C, ev, r) :: GuidanceIn(send.msg) == Guide(n)
  {
    var sends := SentBy(n, C, ev, r);
    forall send <- sends
      ensures GuidanceIn(send.msg) == Guide(n)
    {
      var i :| 0 <= i < |sends| && sends[i] == send;
      if ev.FromPeer? {
        var answer := Step(n, C, ev).past[r].answers[|C.past[r].answers|..][i];
        assert IsReplyTo(NodeOf(n, r), sends[i], answer.entry, answer.trans);
      }
    }
  }

  /** Every message any replica ever sends to a client carries the initial guidance. */
  lemma {:induction false} OnlyInitialGuidance(n: nat, events: seq<Event>, r: nat)
    requires 1 <= n <= KEY_SPACE && AllRouted(n, events) && r < n
    ensures |Run(n, events).nodes| == n
    ensures forall send <- Run(n, events).nodes[r].sent :: GuidanceIn(send.msg) == Guide(n)
  {
    if events == [] {
    } else {
      var front, last := events[..|events| - 1], events[|events| - 1];
      assert forall ev <- front :: ev in events;
      OnlyInitialGuidance(n, front, r);
      ClusterRefinesEveryGroup(n, front);
      var C, C' := Run(n, front), Run(n, events);
      StepWritesOut(n, C, last, r);
      OnlyInitialGuidanceIn(n, C, last, r);
      assert C'.nodes[r].sent == C.nodes[r].sent + SentBy(n, C, last, r);
    }
  }

  /** A client's message, at any point of a run. */
  lemma ClientAnsweredAtOnce(n: nat, events: seq<Event>, ev: Event, r: nat)
    requires 1 <= n <= KEY_SPACE && AllRouted(n, events) && !ev.FromPeer? && r < n
    ensures Settled(n, Run(n, events)) && |Run(n, events + [ev]).nodes| == n
    ensures Run(n, events + [ev]).nodes[r].sent == Run(n, events).nodes[r].sent + Direct(n, Run(n, events), ev, r)
    ensures EntryReplies(n, events + [ev], r) == EntryReplies(n, events, r)
  {
    ClusterRefinesEveryGroup(n, events);
    ClientWritesOut(n, Run(n, events), ev, r);
    assert (events + [ev])[..|events|] == events;
  }

  // ---- Every committed operation is answered once ----

  // The replies whose answer is for an entry of group g.
  function OfGroup(replies: seq<ClientSend>, answers: seq<Answer>, g: nat): seq<ClientSend>
    requires |replies| == |answers|
  {
    if answers == [] then []
    else
      var last := |answers| - 1;
      OfGroup(replies[..last], answers[..last], g) + if answers[last].gid == g then [replies[last]] else []
  }

  // One reply for each entry, in order, whichever connection it is on.
  predicate RepliesTo(k: Node, replies: seq<ClientSend>, entries: seq<Entry>)
  {
    && |replies| == |entries|
    && forall i :: 0 <= i < |entries| ==> IsReplyTo(k, replies[i], entries[i], replies[i].trans)
  }

  lemma {:induction false} GroupAnswered(k: Node, replies: seq<ClientSend>, answers: seq<Answer>, g: nat)
    requires Answering(k, replies, answers)
    ensures RepliesTo(k, OfGroup(replies, answers, g), AppliedIn(answers, g))
  {
    if answers == [] {
    } else {
      GroupAnswered(k, replies[..|answers| - 1], answers[..|answers| - 1], g);
    }
  }

  /** Every committed operation is answered exactly once: for each group, the replies its owner has written for
      it are one for each committed entry, in log order, and none for any other. */
  lemma {:induction false} CommittedAnsweredOnce(n: nat, events: seq<Event>, g: nat)
    requires 1 <= n <= KEY_SPACE && AllRouted(n, events) && g < KEY_SPACE
    ensures var C := Run(n, events);
            var r := OwnerOf(n, g);
            && Settled(n, C) && C.nodes[r].smrs[g].commits <= |C.nodes[r].smrs[g].log|
            && AppliedIn(C.past[r].answers, g) == C.nodes[r].smrs[g].log[..C.nodes[r].smrs[g].commits]
            && |EntryReplies(n, events, r)| == |C.past[r].answers|
            && RepliesTo(NodeOf(n, r), OfGroup(EntryReplies(n, events, r), C.past[r].answers, g),
                         C.nodes[r].smrs[g].log[..C.nodes[r].smrs[g].commits])
    ensures var C := Run(n, events);
            var r := OwnerOf(n, g);
            && C.nodes[r].sent == Written(n, events, r)
            && forall k :: 0 <= k < C.nodes[r].smrs[g].commits ==> C.nodes[r].smrs[g].log[k].index == k + 1
  {
    var r := OwnerOf(n, g);
    CommittedRecordedOnce(n, events, g);
    RepliesMatchRecord(n, events, r);
    GroupAnswered(NodeOf(n, r), EntryReplies(n, events, r), Run(n, events).past[r].answers, g);
    forall k | 0 <= k < Run(n, events).nodes[r].smrs[g].commits
      ensures Run(n, events).nodes[r].smrs[g].log[k].index == k + 1
    {
      assert AppliedIn(Run(n, events).past[r].answers, g)[k].index == k + 1;
    }
  }

  // The replies that name a key of group g.
  function NamingGroup(replies: seq<ClientSend>, g: nat): seq<ClientSend>
  {
    if replies == [] then []
    else
      var last := replies[|replies| - 1];
      NamingGroup(replies[..|replies| - 1], g)
      + if last.msg.ClientReply? && GroupOf(last.msg.keyHash) == g then [last] else []
  }

  lemma {:induction false} NamedGroups(k: Node, replies: seq<ClientSend>, answers: seq<Answer>, g: nat)
    requires Answering(k, replies, answers) && KeyValue.AnswersInGroup(answers)
    ensures NamingGroup(replies, g) == OfGroup(replies, answers, g)
  {
    if answers == [] {
    } else {
      var front := answers[..|answers| - 1];
      assert forall a <- front :: a in answers;
      NamedGroups(k, replies[..|answers| - 1], front, g);
      assert answers[|answers| - 1] in answers;
    }
  }

  /** The same of the messages alone: where operation and message name the same key, the replies that name a key
      of group g are one for each committed entry of g, in log order. */
  lemma {:induction false} CommittedAnsweredByKey(n: nat, events: seq<Event>, g: nat)
    requires KeyValue.ProperRun(n, events) && g < KEY_SPACE
    ensures var C := Run(n, events);
            var r := OwnerOf(n, g);
            && Settled(n, C) && C.nodes[r].smrs[g].commits <= |C.nodes[r].smrs[g].log|
            && RepliesTo(NodeOf(n, r), NamingGroup(EntryReplies(n, events, r), g),
                         C.nodes[r].smrs[g].log[..C.nodes[r].smrs[g].commits])
  {
    var r := OwnerOf(n, g);
    CommittedAnsweredOnce(n, events, g);
    RepliesMatchRecord(n, events, r);
    KeyValue.RunStore(n, events, r);
    NamedGroups(NodeOf(n, r), EntryReplies(n, events, r), Run(n, events).past[r].answers, g);
  }

  // ---- On which connection ----

  // Each entry of the batch is answered on the connection of the last write that got its index.
  predicate AnsweredByTable(k: Node, writes: seq<Write>, batch: seq<Entry>, replies: seq<ClientSend>)
  {
    && |replies| == |batch|
    && forall i :: 0 <= i < |batch| ==>
         && LatestAt(writes, batch[i].index) > 0
         && IsReplyTo(k, replies[i], batch[i], writes[LatestAt(writes, batch[i].index) - 1].trans)
  }

  // The batch was added to the answers, entry by entry.
  predicate EntriesAnswered(before: seq<Answer>, after: seq<Answer>, gid: nat, batch: seq<Entry>)
  {
    && |after| == |before| + |batch| && after[..|before|] == before
    && forall i :: 0 <= i < |batch| ==> after[|before| + i].gid == gid && after[|before| + i].entry == batch[i]
  }

  lemma TableAnswers(k: Node, C: ClusterState, r: nat, gid: nat, batch: seq<Entry>, replies: seq<ClientSend>)
    requires r < |C.nodes| && r < |C.past| && TableOk(C, r) && forall e <- batch :: e.index in C.nodes[r].pendings
    requires Answering(k, replies, Answers(C.nodes[r].pendings, gid, batch))
    ensures AnsweredByTable(k, C.past[r].writes, batch, replies)
  {
    forall i | 0 <= i < |batch|
      ensures LatestAt(C.past[r].writes, batch[i].index) > 0
      ensures IsReplyTo(k, replies[i], batch[i],
                        C.past[r].writes[LatestAt(C.past[r].writes, batch[i].index) - 1].trans)
    {
      assert batch[i] in batch;
      assert TableHas(C.past[r].writes, C.nodes[r].pendings, batch[i].index);
      assert Answers(C.nodes[r].pendings, gid, batch)[i]
          == Answer(gid, batch[i], C.nodes[r].pendings[batch[i].index]);
    }
  }

  lemma AnswersExtend(before: seq<Answer>, pendings: map<nat, Transport>, gid: nat, batch: seq<Entry>)
    requires forall e <- batch :: e.index in pendings
    ensures EntriesAnswered(before, before + Answers(pendings, gid, batch), gid, batch)
  {
  }

  /** Who is answered: a reply from a peer makes the owner answer each entry it newly applies, once, on the
      connection of the last write (of any group) that got the same log index. */
  lemma {:induction false} AnswersGoToLatestWrite(n: nat, events: seq<Event>, m: GenericMessage)
    returns (batch: seq<Entry>, replies: seq<ClientSend>)
    requires 1 <= n <= KEY_SPACE && AllRouted(n, events) && m in Run(n, events).net && m.body.AppendReply?
    ensures var C, C' := Run(n, events), Step(n, Run(n, events), FromPeer(m));
            && m.to < n && |C.nodes| == |C.past| == |C'.nodes| == |C'.past| == n
            && m.body.groupId < KEY_SPACE && |C.nodes[m.to].smrs| == KEY_SPACE && m.to == OwnerOf(n, m.body.groupId)
            && !PeerAborts(NodeOf(n, m.to), C.nodes[m.to], m) && m.epoch == Guide(n).epoch
            && batch == ReplyStep(C.nodes[m.to].smrs[m.body.groupId], n, m.body, m.from).applied
            && C'.nodes[m.to].sent == C.nodes[m.to].sent + replies
            && EntriesAnswered(C.past[m.to].answers, C'.past[m.to].answers, m.body.groupId, batch)
            && AnsweredByTable(NodeOf(n, m.to), C.past[m.to].writes, batch, replies)
            && (forall e <- batch :: e in C.nodes[m.to].smrs[m.body.groupId].log)
  {
    ClusterRefinesEveryGroup(n, events);
    RunTables(n, events);
    var C := Run(n, events);
    var r, g := m.to, m.body.groupId;
    batch := ReplyChanges(n, C, m);
    replies := BatchWritesOut(NodeOf(n, r), C.nodes[r], m, batch);
    assert TableOk(C, r);
    TableAnswers(NodeOf(n, r), C, r, g, batch, replies);
    AnswersExtend(C.past[r].answers, C.nodes[r].pendings, g, batch);
  }

  // Whether a reply for entry `index` of group g on connection t reached the client that made the operation.
  predicate ReachesCreator(writes: seq<Write>, g: nat, index: nat, t: Transport)
  {
    CreatorAt(writes, g, index) >= 0 && t == writes[CreatorAt(writes, g, index)].trans
  }

  // The last write that holds the index came from the connection the entry's own write came from.
  predicate HeldByCreator(writes: seq<Write>, g: nat, index: nat)
  {
    && CreatorAt(writes, g, index) >= 0 && LatestAt(writes, index) > 0
    && writes[LatestAt(writes, index) - 1].trans == writes[CreatorAt(writes, g, index)].trans
  }

  /** Every answer, when it goes out, goes out on the connection of the write that created its entry if and only
      if the last write that then holds its index came from that connection; in particular when no later write of
      another group was given the index. */
  lemma {:induction false} AnsweredOnCreatorExactlyWhen(n: nat, events: seq<Event>, m: GenericMessage)
    returns (batch: seq<Entry>, replies: seq<ClientSend>)
    requires 1 <= n <= KEY_SPACE && AllRouted(n, events) && m in Run(n, events).net && m.body.AppendReply?
    ensures var C, C' := Run(n, events), Step(n, Run(n, events), FromPeer(m));
            && m.to < n && |C.nodes| == |C.past| == |C'.nodes| == n
            && |replies| == |batch| && C'.nodes[m.to].sent == C.nodes[m.to].sent + replies
            && var writes, g := C.past[m.to].writes, m.body.groupId;
               forall i :: 0 <= i < |batch| ==>
                 && IsReplyTo(NodeOf(n, m.to), replies[i], batch[i], replies[i].trans)
                 && (ReachesCreator(writes, g, batch[i].index, replies[i].trans)
                     <==> HeldByCreator(writes, g, batch[i].index))
                 && (LatestAt(writes, batch[i].index) - 1 == CreatorAt(writes, g, batch[i].index)
                     <==> NotTaken(writes, g, batch[i].index))
  {
    batch, replies := AnswersGoToLatestWrite(n, events, m);
    var r, g := m.to, m.body.groupId;
    ClusterRefinesEveryGroup(n, events);
    var C := Run(n, events);
    assert R.Inv(GroupConfig(n, g), Project(n, C, g));
    forall i | 0 <= i < |batch|
      ensures CreatorAt(C.past[r].writes, g, batch[i].index) >= 0
      ensures LatestAt(C.past[r].writes, batch[i].index) - 1 == CreatorAt(C.past[r].writes, g, batch[i].index)
              <==> NotTaken(C.past[r].writes, g, batch[i].index)
    {
      assert batch[i] in batch;
      IndexInLog(C.nodes[r].smrs[g].log, batch[i]);
      CreatorRegisteredExactlyWhen(n, events, g, batch[i].index);
    }
  }

  // No later write of another group was given the index.
  predicate NotTaken(writes: seq<Write>, g: nat, index: nat)
  {
    forall j :: CreatorAt(writes, g, index) < j < |writes| && writes[j].gid != g ==> writes[j].index != index
  }

  lemma IndexInLog(log: seq<Entry>, e: Entry)
    requires WellIndexed(log) && e in log
    ensures 1 <= e.index <= |log|
  {
  }

  // ---- When all writes fall in one group ----

  // The writes replica r accepted, as they arrived.
  function Accepted(n: nat, events: seq<Event>, r: nat): seq<Event>
    requires n >= 1
  {
    if events == [] then []
    else
      var last := events[|events| - 1];
      Accepted(n, events[..|events| - 1], r)
      + if AcceptedAt(n, last, r) then [last] else []
  }

  // The k-th recorded write is the k-th accepted one.
  predicate Records(writes: seq<Write>, accepted: seq<Event>)
  {
    && |writes| == |accepted|
    && forall k :: 0 <= k < |writes| ==>
         && accepted[k].FromClient?
         && writes[k].trans == accepted[k].trans && writes[k].gid == GroupOf(accepted[k].msg.keyHash)
  }

  lemma {:induction false} RunRecords(n: nat, events: seq<Event>, r: nat)
    requires 1 <= n <= KEY_SPACE && AllRouted(n, events) && r < n
    ensures |Run(n, events).past| == n && Records(Run(n, events).past[r].writes, Accepted(n, events, r))
  {
    if events == [] {
    } else {
      var front := events[..|events| - 1];
      assert forall ev <- front :: ev in events;
      RunRecords(n, front, r);
      ClusterRefinesEveryGroup(n, front);
      StepRecords(n, Run(n, front), events[|events| - 1], r);
    }
  }

  // The operations proposed in group g are those of the writes its owner accepted for it.
  predicate ProposesAll(proposals: seq<ClientMessage>, accepted: seq<Event>)
  {
    && |proposals| == |accepted|
    && forall k :: 0 <= k < |accepted| ==> accepted[k].FromClient? && accepted[k].msg == proposals[k]
  }

  lemma ProposedWhenAccepted(n: nat, ev: Event, g: nat)
    requires 1 <= n <= KEY_SPACE && g < KEY_SPACE && Routed(n, ev)
    requires AcceptedAt(n, ev, OwnerOf(n, g)) ==> GroupOf(ev.msg.keyHash) == g
    ensures ProjectEvent(n, g, ev).Propose? <==> AcceptedAt(n, ev, OwnerOf(n, g))
    ensures ProjectEvent(n, g, ev).Propose? ==> ProjectEvent(n, g, ev).msg == ev.msg
  {
  }

  lemma ProposalsAfter(gevents: seq<R.Event>, ev: R.Event)
    ensures Safety.Proposals(gevents + [ev]) == Safety.Proposals(gevents) + if ev.Propose? then [ev.msg] else []
  {
    assert (gevents + [ev])[..|gevents|] == gevents;
  }

  lemma {:induction false} ProposalsAreAccepted(n: nat, events: seq<Event>, g: nat)
    requires 1 <= n <= KEY_SPACE && AllRouted(n, events) && g < KEY_SPACE
    requires forall ev <- Accepted(n, events, OwnerOf(n, g)) :: ev.FromClient? && GroupOf(ev.msg.keyHash) == g
    ensures ProposesAll(Safety.Proposals(ProjectEvents(n, g, events)), Accepted(n, events, OwnerOf(n, g)))
  {
    if events == [] {
    } else {
      var front, last := events[..|events| - 1], events[|events| - 1];
      assert forall ev <- front :: ev in events;
      var before, after := Accepted(n, front, OwnerOf(n, g)), Accepted(n, events, OwnerOf(n, g));
      assert after == before + if AcceptedAt(n, last, OwnerOf(n, g)) then [last] else [];
      ProposalsAreAccepted(n, front, g);
      assert last in events && (AcceptedAt(n, last, OwnerOf(n, g)) ==> last in after);
      ProposedWhenAccepted(n, last, g);
      ProposalsAfter(ProjectEvents(n, g, front), ProjectEvent(n, g, last));
      assert ProjectEvents(n, g, events) == ProjectEvents(n, g, front) + [ProjectEvent(n, g, last)];
    }
  }

  // The k-th reply answers the k-th accepted write, on its connection and with its key.
  predicate AnswersInOrder(k: Node, replies: seq<ClientSend>, accepted: seq<Event>)
  {
    && |replies| <= |accepted|
    && forall i :: 0 <= i < |replies| ==>
         && accepted[i].FromClient?
         && IsReplyTo(k, replies[i], Entry(accepted[i].msg.epoch, i + 1, accepted[i].msg.op), accepted[i].trans)
  }

  /** In a run in which all writes a group's owner accepted fall in that group, the replies it wrote to them are one
      for each of the first commits writes, in order, each on the connection that write came from. */
  lemma {:induction false} OneGroupAnswersCreators(n: nat, events: seq<Event>, g: nat)
    requires 1 <= n <= KEY_SPACE && AllRouted(n, events) && g < KEY_SPACE
    requires forall ev <- Accepted(n, events, OwnerOf(n, g)) :: ev.FromClient? && GroupOf(ev.msg.keyHash) == g
    ensures var r := OwnerOf(n, g);
            && Settled(n, Run(n, events))
            && |EntryReplies(n, events, r)| == Run(n, events).nodes[r].smrs[g].commits
            && AnswersInOrder(NodeOf(n, r), EntryReplies(n, events, r), Accepted(n, events, r))
            && Run(n, events).nodes[r].sent == Written(n, events, r)
  {
    var r := OwnerOf(n, g);
    var C := Run(n, events);
    ClusterRefinesEveryGroup(n, events);
    RunRecords(n, events, r);
    AcceptedInOneGroup(C.past[r].writes, Accepted(n, events, r), g);
    OneGroupInTurn(n, events, r, g);
    RepliesMatchRecord(n, events, r);
    var c := GroupConfig(n, g);
    ProposalsAreAccepted(n, events, g);
    Safety.OwnerLogIsProposals(c, ProjectEvents(n, g, events));
    CommittedRecordedOnce(n, events, g);
    AllAnswersInGroup(C.past[r].answers, g);
    assert Project(n, C, g).reps[r].log == C.nodes[r].smrs[g].log;
    InTurnOnTheWire(NodeOf(n, r), C.past[r], EntryReplies(n, events, r), Accepted(n, events, r), g,
                    C.nodes[r].smrs[g].log);
  }

  lemma AcceptedInOneGroup(writes: seq<Write>, accepted: seq<Event>, g: nat)
    requires Records(writes, accepted) && forall ev <- accepted :: ev.FromClient? && GroupOf(ev.msg.keyHash) == g
    ensures OneGroup(writes, g)
  {
    forall k | 0 <= k < |writes|
      ensures writes[k].gid == g
    {
      assert accepted[k] in accepted;
    }
  }

  lemma InTurnOnTheWire(k: Node, past: History, replies: seq<ClientSend>, accepted: seq<Event>, g: nat, log: seq<Entry>)
    requires AnsweredInTurn(past, g) && Answering(k, replies, past.answers) && Records(past.writes, accepted)
    requires |past.answers| <= |log| == |accepted|
    requires forall i :: 0 <= i < |accepted| ==>
               accepted[i].FromClient? && log[i] == Entry(accepted[i].msg.epoch, i + 1, accepted[i].msg.op)
    requires forall i :: 0 <= i < |past.answers| ==> past.answers[i].entry == log[i]
    ensures AnswersInOrder(k, replies, accepted)
  {
    forall i | 0 <= i < |replies|
      ensures IsReplyTo(k, replies[i], Entry(accepted[i].msg.epoch, i + 1, accepted[i].msg.op), accepted[i].trans)
    {
      assert IsReplyTo(k, replies[i], past.answers[i].entry, past.answers[i].trans);
      assert past.answers[i].trans == past.writes[i].trans == accepted[i].trans;
    }
  }
}
