/** The key/value store of a replica: at the owner of a key it is the replay of the committed log. */
module KeyValue {
  import opened Routing
  import opened Messages
  import opened ReplicatedLog
  import opened SmrSteps
  import opened MorphlingSteps
  import opened Cluster
  import R = Replication
  import Safety = ReplicationSafety

  predicate IsWriteTo(e: Entry, key: KeyHash)
  {
    e.data.opType == WRITE && e.data.keyHash == key
  }

  // 1-based position of the last write to the key; 0 when there is none.
  function LastWriteAt(entries: seq<Entry>, key: KeyHash): (at: nat)
    ensures at <= |entries|
    ensures at > 0 ==> IsWriteTo(entries[at - 1], key)
    ensures forall j :: at <= j < |entries| ==> !IsWriteTo(entries[j], key)
  {
    if entries == [] then 0
    else if IsWriteTo(entries[|entries| - 1], key) then |entries|
    else LastWriteAt(entries[..|entries| - 1], key)
  }

  // What replaying the entries leaves under the key: empty unless something was written.
  function LastWrite(entries: seq<Entry>, key: KeyHash): Bytes
  {
    var at := LastWriteAt(entries, key);
    if at == 0 then [] else entries[at - 1].data.data
  }

  function EntriesOf(answers: seq<Answer>): seq<Entry>
  {
    seq(|answers|, i requires 0 <= i < |answers| => answers[i].entry)
  }

  lemma {:induction false} LastWriteOfBoth(a: seq<Entry>, b: seq<Entry>, key: KeyHash)
    ensures LastWrite(a + b, key) == if LastWriteAt(b, key) > 0 then LastWrite(b, key) else LastWrite(a, key)
  {
    if b == [] {
      assert a + b == a;
    } else {
      var front := b[..|b| - 1];
      assert (a + b)[..|a + b| - 1] == a + front;
      LastWriteOfBoth(a, front, key);
    }
  }

  lemma {:induction false} ApplyingReplays(k: Node, s: MState, entries: seq<Entry>, key: KeyHash)
    requires AllPending(s, entries)
    ensures Fetch(ApplyBatch(k, s, entries).storage, key)
            == if LastWriteAt(entries, key) > 0 then LastWrite(entries, key) else Fetch(s.storage, key)
  {
    if entries == [] {
    } else {
      ApplyingReplays(k, s, entries[..|entries| - 1], key);
      OneReplays(k, ApplyBatch(k, s, entries[..|entries| - 1]), entries[|entries| - 1], key);
      LastWriteStep(entries, key);
    }
  }

  lemma OneReplays(k: Node, s: MState, e: Entry, key: KeyHash)
    requires e.index in s.pendings
    ensures Fetch(ApplyOne(k, s, e).storage, key) == if IsWriteTo(e, key) then e.data.data else Fetch(s.storage, key)
  {
  }

  lemma LastWriteStep(entries: seq<Entry>, key: KeyHash)
    requires entries != []
    ensures var front, last := entries[..|entries| - 1], entries[|entries| - 1];
            if IsWriteTo(last, key) then LastWriteAt(entries, key) > 0 && LastWrite(entries, key) == last.data.data
            else
              LastWriteAt(entries, key) == LastWriteAt(front, key) && LastWrite(entries, key) == LastWrite(front, key)
  {
  }

  // At every replica the store is the replay of what it has applied.
  ghost predicate StoreOk(C: ClusterState, r: nat, key: KeyHash)
    requires r < |C.nodes| && r < |C.past|
  {
    Fetch(C.nodes[r].storage, key) == LastWrite(EntriesOf(C.past[r].answers), key)
  }

  // Operation and message carry the same key.
  predicate KeysAgree(ev: Event)
  {
    ev.FromClient? ==> ev.msg.op.keyHash == ev.msg.keyHash
  }

  ghost predicate ProperRun(n: nat, events: seq<Event>)
  {
    1 <= n <= KEY_SPACE && AllRouted(n, events) && forall ev <- events :: KeysAgree(ev)
  }

  // The log of group g at its owner, and how much of it is committed there.
  function GroupLog(n: nat, C: ClusterState, g: nat): seq<Entry>
    requires 1 <= n <= KEY_SPACE && g < KEY_SPACE && OwnerOf(n, g) < |C.nodes| && g < |C.nodes[OwnerOf(n, g)].smrs|
  {
    C.nodes[OwnerOf(n, g)].smrs[g].log
  }

  function CommittedLog(n: nat, C: ClusterState, g: nat): seq<Entry>
    requires 1 <= n <= KEY_SPACE && g < KEY_SPACE && OwnerOf(n, g) < |C.nodes| && g < |C.nodes[OwnerOf(n, g)].smrs|
    requires C.nodes[OwnerOf(n, g)].smrs[g].commits <= |GroupLog(n, C, g)|
  {
    GroupLog(n, C, g)[..C.nodes[OwnerOf(n, g)].smrs[g].commits]
  }

  // At least n/2+1 replicas have the entries at the start of their log of group g.
  ghost predicate HeldByQuorum(n: nat, C: ClusterState, g: nat, entries: seq<Entry>)
    requires 1 <= n <= KEY_SPACE && Shaped(n, C) && g < KEY_SPACE
  {
    Safety.HeldByQuorum(GroupConfig(n, g), Project(n, C, g), entries)
  }

  // ---- Keys stay in their group ----

  lemma {:induction false} ProposalsOfGroup(n: nat, g: nat, events: seq<Event>)
    requires ProperRun(n, events) && g < KEY_SPACE
    ensures forall msg <- Safety.Proposals(ProjectEvents(n, g, events)) :: GroupOf(msg.op.keyHash) == g
  {
    if events == [] {
    } else {
      var front := events[..|events| - 1];
      assert forall ev <- front :: ev in events;
      ProposalsOfGroup(n, g, front);
      assert ProjectEvents(n, g, events)[..|events| - 1] == ProjectEvents(n, g, front);
      assert events[|events| - 1] in events;
    }
  }

  lemma LogKeysInGroup(n: nat, g: nat, events: seq<Event>)
    requires ProperRun(n, events) && g < KEY_SPACE
    ensures Settled(n, Run(n, events))
    ensures forall e <- GroupLog(n, Run(n, events), g) :: GroupOf(e.data.keyHash) == g
  {
    ClusterRefinesEveryGroup(n, events);
    var c, gevents := GroupConfig(n, g), ProjectEvents(n, g, events);
    Safety.OwnerLogIsProposals(c, gevents);
    ProposalsOfGroup(n, g, events);
    assert Project(n, Run(n, events), g).reps[c.owner].log == GroupLog(n, Run(n, events), g);
    forall e <- GroupLog(n, Run(n, events), g)
      ensures GroupOf(e.data.keyHash) == g
    {
      var i :| 0 <= i < |Safety.OwnerLog(c, gevents)| && Safety.OwnerLog(c, gevents)[i] == e;
      assert Safety.Proposals(gevents)[i] in Safety.Proposals(gevents);
    }
  }

  ghost predicate AnswersInGroup(answers: seq<Answer>)
  {
    forall a <- answers :: GroupOf(a.entry.data.keyHash) == a.gid
  }

  lemma LastWriteAfter(a: seq<Entry>, e: Entry, key: KeyHash)
    ensures LastWrite(a + [e], key) == if IsWriteTo(e, key) then e.data.data else LastWrite(a, key)
  {
    assert (a + [e])[..|a|] == a;
  }

  lemma {:induction false} OnlyItsGroupMatters(answers: seq<Answer>, key: KeyHash)
    requires AnswersInGroup(answers)
    ensures LastWrite(EntriesOf(answers), key) == LastWrite(AppliedIn(answers, GroupOf(key)), key)
  {
    if answers == [] {
    } else {
      var front, last := answers[..|answers| - 1], answers[|answers| - 1];
      assert forall a <- front :: a in answers;
      OnlyItsGroupMatters(front, key);
      assert EntriesOf(answers) == EntriesOf(front) + [last.entry];
      LastWriteAfter(EntriesOf(front), last.entry, key);
      assert last in answers;
      if last.gid == GroupOf(key) {
        LastWriteAfter(AppliedIn(front, GroupOf(key)), last.entry, key);
        assert AppliedIn(answers, GroupOf(key)) == AppliedIn(front, GroupOf(key)) + [last.entry];
      } else {
        assert AppliedIn(answers, GroupOf(key)) == AppliedIn(front, GroupOf(key));
      }
    }
  }

  // ---- The store of every replica, through any step ----

  ghost predicate ReplicaOk(C: ClusterState, r: nat)
    requires r < |C.nodes| && r < |C.past|
  {
    (forall key :: StoreOk(C, r, key)) && AnswersInGroup(C.past[r].answers)
  }

  lemma ClientStepStore(n: nat, C: ClusterState, ev: Event, r: nat)
    requires 1 <= n <= KEY_SPACE && Settled(n, C) && !ev.FromPeer? && r < n && ReplicaOk(C, r)
    ensures |Step(n, C, ev).nodes| == |Step(n, C, ev).past| == n && ReplicaOk(Step(n, C, ev), r)
  {
    var C' := Step(n, C, ev);
    assert C'.past[r].answers == C.past[r].answers;
    forall key
      ensures StoreOk(C', r, key)
    {
      assert StoreOk(C, r, key);
      assert Fetch(C'.nodes[r].storage, key) == Fetch(C.nodes[r].storage, key);
    }
  }

  // Applying a batch extends both the store and the record of it.
  lemma StoreAfterBatch(k: Node, s: MState, answers: seq<Answer>, gid: nat, batch: seq<Entry>, key: KeyHash)
    requires AllPending(s, batch) && Fetch(s.storage, key) == LastWrite(EntriesOf(answers), key)
    ensures Fetch(ApplyBatch(k, s, batch).storage, key)
            == LastWrite(EntriesOf(answers + Answers(s.pendings, gid, batch)), key)
  {
    ApplyingReplays(k, s, batch, key);
    LastWriteOfBoth(EntriesOf(answers), batch, key);
    EntriesOfBoth(answers, Answers(s.pendings, gid, batch));
    assert EntriesOf(Answers(s.pendings, gid, batch)) == batch;
  }

  lemma EntriesOfBoth(a: seq<Answer>, b: seq<Answer>)
    ensures EntriesOf(a + b) == EntriesOf(a) + EntriesOf(b)
  {
  }

  lemma ReplyStoreAt(n: nat, C: ClusterState, m: GenericMessage, batch: seq<Entry>, key: KeyHash)
    requires 1 <= n && m.to < |C.nodes| && m.to < |C.past| && m.body.AppendReply?
    requires !PeerCrashes(NodeOf(n, m.to), C.nodes[m.to], m)
    requires AppendReplyAt(NodeOf(n, m.to), C.nodes[m.to], m).applyEntries == batch
    requires forall e <- batch :: e.index in C.nodes[m.to].pendings
    requires StoreOk(C, m.to, key)
    ensures var s' := MaybeApply(NodeOf(n, m.to), AppendReplyAt(NodeOf(n, m.to), C.nodes[m.to], m));
            Fetch(s'.storage, key)
            == LastWrite(EntriesOf(C.past[m.to].answers + Answers(C.nodes[m.to].pendings, m.body.groupId, batch)), key)
  {
    var s := AppendReplyAt(NodeOf(n, m.to), C.nodes[m.to], m);
    assert s.storage == C.nodes[m.to].storage && s.pendings == C.nodes[m.to].pendings;
    StoreAfterBatch(NodeOf(n, m.to), s, C.past[m.to].answers, m.body.groupId, batch, key);
  }

  // The cluster after a reply made its replica apply the batch.
  ghost predicate Applied(n: nat, C: ClusterState, C': ClusterState, m: GenericMessage, batch: seq<Entry>)
    requires 1 <= n && m.to < |C.nodes| && m.to < |C.past| && m.body.AppendReply?
    requires !PeerCrashes(NodeOf(n, m.to), C.nodes[m.to], m)
  {
    var s' := MaybeApply(NodeOf(n, m.to), AppendReplyAt(NodeOf(n, m.to), C.nodes[m.to], m));
    && (forall e <- batch :: e.index in C.nodes[m.to].pendings)
    && AppendReplyAt(NodeOf(n, m.to), C.nodes[m.to], m).applyEntries == batch
    && |C'.nodes| == |C.nodes| && |C'.past| == |C.past|
    && C'.nodes[m.to].storage == s'.storage
    && C'.past[m.to].answers
       == C.past[m.to].answers + Answers(C.nodes[m.to].pendings, m.body.groupId, batch)
    && forall q :: 0 <= q < |C.nodes| && q < |C.past| && q != m.to ==>
         C'.nodes[q] == C.nodes[q] && C'.past[q] == C.past[q]
  }

  lemma AppliedStoreOk(n: nat, C: ClusterState, C': ClusterState, m: GenericMessage, batch: seq<Entry>, r: nat)
    requires 1 <= n && m.to < |C.nodes| && m.to < |C.past| && m.body.AppendReply?
    requires !PeerCrashes(NodeOf(n, m.to), C.nodes[m.to], m) && Applied(n, C, C', m, batch)
    requires r < |C.nodes| && r < |C.past| && ReplicaOk(C, r)
    requires AnswersInGroup(Answers(C.nodes[m.to].pendings, m.body.groupId, batch))
    ensures ReplicaOk(C', r)
  {
    forall key
      ensures StoreOk(C', r, key)
    {
      assert StoreOk(C, r, key);
      if r == m.to {
        ReplyStoreAt(n, C, m, batch, key);
      }
    }
  }

  lemma BatchWaits(k: Node, s: MState, m: GenericMessage)
    requires s.applyEntries == [] && m.body.AppendReply? && !PeerAborts(k, s, m) && m.epoch == k.guide.epoch
    ensures AppendReplyAt(k, s, m).applyEntries == ReplyStep(s.smrs[m.body.groupId], k.n, m.body, m.from).applied
  {
  }

  lemma ReplyIsApplied(n: nat, C: ClusterState, m: GenericMessage) returns (batch: seq<Entry>)
    requires 1 <= n <= KEY_SPACE && Settled(n, C) && GroupsOk(n, C) && m in C.net && m.body.AppendReply?
    ensures m.to == OwnerOf(n, m.body.groupId) && !PeerCrashes(NodeOf(n, m.to), C.nodes[m.to], m)
    ensures Applied(n, C, Step(n, C, FromPeer(m)), m, batch)
    ensures forall e <- batch :: e in GroupLog(n, C, m.body.groupId)
  {
    batch := ReplyChanges(n, C, m);
    BatchWaits(NodeOf(n, m.to), C.nodes[m.to], m);
    var C' := Step(n, C, FromPeer(m));
    assert forall q :: 0 <= q < n && q != m.to ==> C'.nodes[q] == C.nodes[q] && C'.past[q] == C.past[q];
  }

  lemma ReplyStepStore(n: nat, C: ClusterState, m: GenericMessage, r: nat)
    requires 1 <= n <= KEY_SPACE && Settled(n, C) && GroupsOk(n, C) && m in C.net && m.body.AppendReply?
    requires r < n && ReplicaOk(C, r)
    requires forall g: nat :: g < KEY_SPACE ==> forall e <- GroupLog(n, C, g) :: GroupOf(e.data.keyHash) == g
    ensures |Step(n, C, FromPeer(m)).nodes| == |Step(n, C, FromPeer(m)).past| == n
    ensures ReplicaOk(Step(n, C, FromPeer(m)), r)
  {
    var batch := ReplyIsApplied(n, C, m);
    BatchKeys(n, C, m.body.groupId, batch, C.nodes[m.to].pendings);
    AppliedStoreOk(n, C, Step(n, C, FromPeer(m)), m, batch, r);
  }

  lemma BatchKeys(n: nat, C: ClusterState, g: nat, batch: seq<Entry>, pendings: map<nat, Transport>)
    requires 1 <= n <= KEY_SPACE && g < KEY_SPACE && OwnerOf(n, g) < |C.nodes| && g < |C.nodes[OwnerOf(n, g)].smrs|
    requires forall e <- GroupLog(n, C, g) :: GroupOf(e.data.keyHash) == g
    requires forall e <- batch :: e in GroupLog(n, C, g) && e.index in pendings
    ensures AnswersInGroup(Answers(pendings, g, batch))
  {
    assert forall a <- Answers(pendings, g, batch) :: a.gid == g && a.entry in batch;
  }

  lemma StepStore(n: nat, C: ClusterState, ev: Event, r: nat)
    requires 1 <= n <= KEY_SPACE && Settled(n, C) && GroupsOk(n, C) && Routed(n, ev) && r < n && ReplicaOk(C, r)
    requires forall g: nat :: g < KEY_SPACE ==> forall e <- GroupLog(n, C, g) :: GroupOf(e.data.keyHash) == g
    ensures |Step(n, C, ev).nodes| == |Step(n, C, ev).past| == n && ReplicaOk(Step(n, C, ev), r)
  {
    match ev
    case FromClient(_, _, _) => ClientStepStore(n, C, ev, r);
    case GuidanceAsked(_, _) => ClientStepStore(n, C, ev, r);
    case FromPeer(m) =>
      if m in C.net {
        if m.body.Append? {
          AppendStepStore(n, C, m, r);
        } else {
          ReplyStepStore(n, C, m, r);
        }
      }
  }

  lemma AppendStepStore(n: nat, C: ClusterState, m: GenericMessage, r: nat)
    requires 1 <= n <= KEY_SPACE && Settled(n, C) && GroupsOk(n, C) && m in C.net && m.body.Append?
    requires r < n && ReplicaOk(C, r)
    ensures |Step(n, C, FromPeer(m)).nodes| == |Step(n, C, FromPeer(m)).past| == n
    ensures ReplicaOk(Step(n, C, FromPeer(m)), r)
  {
    AppendChanges(n, C, m);
    var C' := Step(n, C, FromPeer(m));
    assert C'.nodes[r].storage == C.nodes[r].storage;
    forall key
      ensures StoreOk(C', r, key)
    {
      assert StoreOk(C, r, key);
    }
  }

  lemma {:induction false} RunStore(n: nat, events: seq<Event>, r: nat)
    requires ProperRun(n, events) && r < n
    ensures Settled(n, Run(n, events)) && ReplicaOk(Run(n, events), r)
  {
    ClusterRefinesEveryGroup(n, events);
    if events == [] {
    } else {
      var front := events[..|events| - 1];
      assert forall ev <- front :: ev in events;
      RunStore(n, front, r);
      ClusterRefinesEveryGroup(n, front);
      forall g: nat | g < KEY_SPACE
        ensures forall e <- GroupLog(n, Run(n, front), g) :: GroupOf(e.data.keyHash) == g
      {
        LogKeysInGroup(n, g, front);
      }
      StepStore(n, Run(n, front), events[|events| - 1], r);
    }
  }

  // ---- Main results ----

  /** The store is the replay of the log: at the owner of a key, after any run, what is stored under the key
      is the last write to it among the committed entries of its group. */
  lemma {:induction false} StoreIsReplayOfCommittedLog(n: nat, events: seq<Event>, key: KeyHash)
    requires ProperRun(n, events)
    ensures var C := Run(n, events);
            var g := GroupOf(key);
            && Settled(n, C) && C.nodes[OwnerOf(n, g)].smrs[g].commits <= |GroupLog(n, C, g)|
            && Fetch(C.nodes[OwnerOf(n, g)].storage, key) == LastWrite(CommittedLog(n, C, g), key)
  {
    var C, g := Run(n, events), GroupOf(key);
    var r := OwnerOf(n, g);
    RunStore(n, events, r);
    ClusterRefinesEveryGroup(n, events);
    assert StoreOk(C, r, key);
    OnlyItsGroupMatters(C.past[r].answers, key);
    OwnerFacts(n, C, g);
  }

  /** A read at the owner is answered at once, on its own connection, with a committed value: the last
      write among entries that a quorum of replicas holds, now and in every later state, or the empty
      value when no committed entry writes the key. */
  lemma {:induction false} ReadsReturnCommittedWrites(n: nat, events: seq<Event>, msg: ClientMessage, trans: Transport,
                                                      later: seq<Event>)
    requires ProperRun(n, events) && msg.epoch == Guide(n).epoch && msg.op.opType == READ
    requires events <= later && AllRouted(n, later)
    ensures var g := GroupOf(msg.keyHash);
            var r := OwnerOf(n, g);
            var C, C' := Run(n, events), Step(n, Run(n, events), FromClient(r, msg, trans));
            && Settled(n, C) && |C'.nodes| == n && C.nodes[r].smrs[g].commits <= |GroupLog(n, C, g)|
            && C'.nodes[r].sent
               == C.nodes[r].sent
                  + [ClientSend(trans, ReplyData(NodeOf(n, r), msg.keyHash,
                                                 LastWrite(CommittedLog(n, C, g), msg.keyHash)))]
    ensures var g := GroupOf(msg.keyHash);
            && Settled(n, Run(n, later))
            && HeldByQuorum(n, Run(n, later), g, CommittedLog(n, Run(n, events), g))
  {
    StoreIsReplayOfCommittedLog(n, events, msg.keyHash);
    CommittedIsHeld(n, later, GroupOf(msg.keyHash), |events|);
    assert later[..|events|] == events;
  }

  // What the owner has committed after i events it still has committed in the end, and a quorum holds it.
  lemma OwnerCommitsForGood(c: R.Config, events: seq<R.Event>, i: nat)
    requires c.Valid() && i <= |events|
    ensures c.owner < |R.Run(c, events[..i]).reps| && c.owner < |R.Run(c, events).reps|
    ensures var s, s' := R.Run(c, events[..i]).reps[c.owner], R.Run(c, events).reps[c.owner];
            && s.commits <= |s.log| && s'.commits <= |s'.log|
            && s.log[..s.commits] <= s'.log[..s'.commits]
            && Safety.HeldByQuorum(c, R.Run(c, events), s.log[..s.commits])
  {
    assert events[..|events|] == events;
    Safety.QuorumDurability(c, events, i, |events|);
    Safety.StateMachineSafety(c, events, i, |events|, c.owner, c.owner);
  }

  lemma PrefixRouted(n: nat, events: seq<Event>, i: nat)
    requires 1 <= n <= KEY_SPACE && AllRouted(n, events) && i <= |events|
    ensures AllRouted(n, events[..i])
  {
    assert forall ev <- events[..i] :: ev in events;
  }

  lemma PrefixProjects(n: nat, events: seq<Event>, g: nat, i: nat)
    requires n >= 1 && i <= |events|
    ensures ProjectEvents(n, g, events[..i]) == ProjectEvents(n, g, events)[..i]
  {
  }

  // The cluster after i events, seen from group g.
  lemma GroupAfter(n: nat, events: seq<Event>, g: nat, i: nat)
    requires 1 <= n <= KEY_SPACE && AllRouted(n, events) && g < KEY_SPACE && i <= |events|
    ensures Settled(n, Run(n, events[..i]))
    ensures Project(n, Run(n, events[..i]), g) == R.Run(GroupConfig(n, g), ProjectEvents(n, g, events)[..i])
  {
    PrefixRouted(n, events, i);
    PrefixProjects(n, events, g, i);
    ClusterRefinesEveryGroup(n, events[..i]);
  }

  // What group g has committed after i events is held by a quorum in the end.
  lemma CommittedIsHeld(n: nat, events: seq<Event>, g: nat, i: nat)
    requires 1 <= n <= KEY_SPACE && AllRouted(n, events) && g < KEY_SPACE && i <= |events|
    ensures Settled(n, Run(n, events[..i])) && Settled(n, Run(n, events))
    ensures Run(n, events[..i]).nodes[OwnerOf(n, g)].smrs[g].commits <= |GroupLog(n, Run(n, events[..i]), g)|
    ensures Run(n, events).nodes[OwnerOf(n, g)].smrs[g].commits <= |GroupLog(n, Run(n, events), g)|
    ensures CommittedLog(n, Run(n, events[..i]), g) <= CommittedLog(n, Run(n, events), g)
    ensures HeldByQuorum(n, Run(n, events), g, CommittedLog(n, Run(n, events[..i]), g))
  {
    var c, gevents := GroupConfig(n, g), ProjectEvents(n, g, events);
    GroupAfter(n, events, g, i);
    GroupAfter(n, events, g, |events|);
    assert events[..|events|] == events && gevents[..|events|] == gevents;
    OwnerCommitsForGood(c, gevents, i);
    OwnerPart(n, Run(n, events[..i]), g);
    OwnerPart(n, Run(n, events), g);
  }

  lemma OwnerPart(n: nat, C: ClusterState, g: nat)
    requires 1 <= n <= KEY_SPACE && Shaped(n, C) && g < KEY_SPACE
    ensures Project(n, C, g).reps[OwnerOf(n, g)] == C.nodes[OwnerOf(n, g)].smrs[g]
  {
  }

  // An answered write of a key is among the committed entries of its group.
  lemma AnsweredIsCommitted(n: nat, events: seq<Event>, a: Answer, key: KeyHash) returns (k: nat)
    requires ProperRun(n, events) && IsWriteTo(a.entry, key)
    requires |Run(n, events).past| == n && a in Run(n, events).past[OwnerOf(n, GroupOf(key))].answers
    ensures var C := Run(n, events);
            var g := GroupOf(key);
            && Settled(n, C) && C.nodes[OwnerOf(n, g)].smrs[g].commits <= |GroupLog(n, C, g)|
            && k < |CommittedLog(n, C, g)| && CommittedLog(n, C, g)[k] == a.entry && a.entry.index == k + 1
  {
    var g := GroupOf(key);
    var C := Run(n, events);
    RunStore(n, events, OwnerOf(n, g));
    ClusterRefinesEveryGroup(n, events);
    OwnerFacts(n, C, g);
    AppliedHas(C.past[OwnerOf(n, g)].answers, a);
    k :| 0 <= k < |CommittedLog(n, C, g)| && CommittedLog(n, C, g)[k] == a.entry;
  }

  /** No stale reads: once a write to a key has been applied and answered, whatever the store holds under
      the key later comes from that entry or from one after it in the log. */
  lemma {:induction false} AnsweredWritesStayVisible(n: nat, events: seq<Event>, i: nat, a: Answer, key: KeyHash)
    requires ProperRun(n, events) && i <= |events| && IsWriteTo(a.entry, key)
    requires |Run(n, events[..i]).past| == n && a in Run(n, events[..i]).past[OwnerOf(n, GroupOf(key))].answers
    ensures var C := Run(n, events);
            var g := GroupOf(key);
            && Settled(n, C) && C.nodes[OwnerOf(n, g)].smrs[g].commits <= |GroupLog(n, C, g)|
            && a.entry.index <= LastWriteAt(CommittedLog(n, C, g), key)
            && Fetch(C.nodes[OwnerOf(n, g)].storage, key) == LastWrite(CommittedLog(n, C, g), key)
  {
    var g := GroupOf(key);
    assert forall ev <- events[..i] :: ev in events;
    StoreIsReplayOfCommittedLog(n, events, key);
    CommittedIsHeld(n, events, g, i);
    var k := AnsweredIsCommitted(n, events[..i], a, key);
    assert CommittedLog(n, Run(n, events), g)[k] == a.entry;
  }

  lemma {:induction false} AppliedHas(answers: seq<Answer>, a: Answer)
    requires a in answers
    ensures a.entry in AppliedIn(answers, a.gid)
  {
    if answers[|answers| - 1] == a {
    } else {
      AppliedHas(answers[..|answers| - 1], a);
    }
  }
}
