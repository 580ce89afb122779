/** What one replica does on its rarer paths, and what operations answered from the log return. */
module ReplicaLaws {
  import opened Routing
  import opened Messages
  import opened ReplicatedLog
  import opened SmrSteps
  import opened MorphlingSteps
  import opened Cluster
  import opened KeyValue
  import opened SentReplies
  import Replies

  // ---- Messages that are not acted on ----

  /** The epoch gate: an append message or reply of another epoch changes no log, vote, store or table; its sender is
      sent the guidance, after whatever was waiting. */
  lemma OtherEpochGetsGuidance(k: Node, s: MState, m: GenericMessage)
    requires !m.body.GuidanceBody? && m.epoch != k.guide.epoch && s.applyEntries == []
    ensures !PeerCrashes(k, s, m)
    ensures OnPeerMessage(k, s, m).state == s.(nextMsgs := [])
    ensures OnPeerMessage(k, s, m).wire == s.nextMsgs + [GenericMessage(m.from, k.me, 0, GuidanceBody(3, k.guide))]
  {
  }

  /** Guidance from a peer and messages of other types change nothing; the first still lets waiting messages out. */
  lemma OthersAreIgnored(k: Node, s: MState, m: GenericMessage, trans: Transport)
    requires m.body.GuidanceBody? && |s.smrs| == KEY_SPACE
    ensures !PeerCrashes(k, s, m)
    ensures OnPeerInput(k, s, PeerMessage(m)).state == s.(nextMsgs := [])
    ensures OnPeerInput(k, s, PeerMessage(m)).wire == s.nextMsgs
    ensures OnPeerInput(k, s, NotFromPeer).state == s && OnPeerInput(k, s, NotFromPeer).wire == []
    ensures OnClientInput(k, s, NotFromClient, trans).state == s
    ensures OnClientInput(k, s, NotFromClient, trans).wire == []
  {
  }

  /** A read makes its key present, and changes no value. */
  lemma ReadTouchesKey(k: Node, s: MState, msg: ClientMessage, trans: Transport)
    requires |s.smrs| == KEY_SPACE && msg.epoch == k.guide.epoch && msg.op.opType == 0
    ensures var s' := OnClientInput(k, s, Operate(msg), trans).state;
            && s'.storage.Keys == s.storage.Keys + {msg.keyHash}
            && (forall key <- s.storage :: s'.storage[key] == s.storage[key])
            && (msg.keyHash !in s.storage ==> s'.storage[msg.keyHash] == [])
            && s'.smrs == s.smrs && s'.pendings == s.pendings
  {
  }

  /** Applying an entry makes its key present too, and leaves every other key alone. */
  lemma ApplyTouchesKey(k: Node, s: MState, e: Entry)
    requires e.index in s.pendings
    ensures var s' := ApplyOne(k, s, e);
            && s'.storage.Keys == s.storage.Keys + {e.data.keyHash}
            && (forall key <- s.storage :: key != e.data.keyHash ==> s'.storage[key] == s.storage[key])
  {
  }

  /** Stamping gives append messages and replies this replica's id and epoch; guidance leaves as it was queued. */
  lemma StampingLeavesGuidance(k: Node, msgs: seq<GenericMessage>, i: nat)
    requires i < |msgs|
    ensures |Prepared(k, msgs)| == |msgs|
    ensures Prepared(k, msgs)[i].to == msgs[i].to && Prepared(k, msgs)[i].body == msgs[i].body
    ensures if msgs[i].body.GuidanceBody? then Prepared(k, msgs)[i] == msgs[i]
            else Prepared(k, msgs)[i].from == k.me && Prepared(k, msgs)[i].epoch == k.guide.epoch
  {
  }

  // ---- Operations answered from the log ----

  // The i-th reply to these entries, applied to what `before` left: nothing for a write, else the value of the last
  // write to its key before it.
  predicate ReturnsValues(before: seq<Entry>, entries: seq<Entry>, replies: seq<ClientSend>)
  {
    && |replies| == |entries|
    && forall i :: 0 <= i < |entries| ==> ReturnsValue(before + entries[..i], entries[i], replies[i])
  }

  predicate ReturnsValue(before: seq<Entry>, e: Entry, send: ClientSend)
  {
    && send.msg.ClientReply?
    && send.msg.replyData == if e.data.opType == 1 then [] else LastWrite(before, e.data.keyHash)
  }

  ghost predicate Replays(storage: Store, entries: seq<Entry>)
  {
    forall key :: Holds(storage, entries, key)
  }

  predicate Holds(storage: Store, entries: seq<Entry>, key: KeyHash)
  {
    Fetch(storage, key) == LastWrite(entries, key)
  }

  lemma OneApplied(k: Node, s: MState, before: seq<Entry>, e: Entry) returns (send: ClientSend)
    requires e.index in s.pendings && Replays(s.storage, before)
    ensures Replays(ApplyOne(k, s, e).storage, before + [e])
    ensures ApplyOne(k, s, e).sent == s.sent + [send] && ReturnsValue(before, e, send)
  {
    forall key
      ensures Holds(ApplyOne(k, s, e).storage, before + [e], key)
    {
      assert Holds(s.storage, before, key);
      LastWriteAfter(before, e, key);
      OneReplays(k, s, e, key);
    }
    assert Holds(s.storage, before, e.data.keyHash);
    send := ApplyOne(k, s, e).sent[|s.sent|];
  }

  lemma OneMoreReturns(before: seq<Entry>, entries: seq<Entry>, replies: seq<ClientSend>, e: Entry, send: ClientSend)
    requires ReturnsValues(before, entries, replies) && ReturnsValue(before + entries, e, send)
    ensures ReturnsValues(before, entries + [e], replies + [send])
  {
    forall i | 0 <= i < |entries + [e]|
      ensures ReturnsValue(before + (entries + [e])[..i], (entries + [e])[i], (replies + [send])[i])
    {
      if i < |entries| {
        assert (entries + [e])[..i] == entries[..i];
      } else {
        assert (entries + [e])[..i] == entries;
      }
    }
  }

  lemma ApplyBatchMore(k: Node, s: MState, front: seq<Entry>, last: Entry)
    requires AllPending(s, front) && last.index in s.pendings
    ensures AllPending(s, front + [last])
    ensures ApplyBatch(k, s, front + [last]) == ApplyOne(k, ApplyBatch(k, s, front), last)
  {
    assert (front + [last])[..|front|] == front;
  }

  // What is known after a batch: the replies so far, and the store.
  ghost predicate Returned(k: Node, s: MState, before: seq<Entry>, batch: seq<Entry>, replies: seq<ClientSend>)
    requires AllPending(s, batch)
  {
    && ApplyBatch(k, s, batch).sent == s.sent + replies && ReturnsValues(before, batch, replies)
    && Replays(ApplyBatch(k, s, batch).storage, before + batch)
  }

  lemma OneMoreReturned(k: Node, s: MState, before: seq<Entry>, front: seq<Entry>, last: Entry, first: seq<ClientSend>)
    returns (replies: seq<ClientSend>)
    requires AllPending(s, front) && last.index in s.pendings && Returned(k, s, before, front, first)
    ensures AllPending(s, front + [last]) && Returned(k, s, before, front + [last], replies)
  {
    ApplyBatchMore(k, s, front, last);
    var mid := ApplyBatch(k, s, front);
    var send := OneApplied(k, mid, before + front, last);
    replies := first + [send];
    OneMoreReturns(before, front, first, last, send);
    assert s.sent + first + [send] == s.sent + replies;
    ReturnedIs(k, s, before, front + [last], replies, ApplyOne(k, mid, last), before + front + [last]);
  }

  lemma ReturnedIs(k: Node, s: MState, before: seq<Entry>, batch: seq<Entry>, replies: seq<ClientSend>, after: MState,
                   all: seq<Entry>)
    requires AllPending(s, batch) && after == ApplyBatch(k, s, batch) && all == before + batch
    requires after.sent == s.sent + replies && ReturnsValues(before, batch, replies) && Replays(after.storage, all)
    ensures Returned(k, s, before, batch, replies)
  {
  }

  lemma {:induction false} BatchReturns(k: Node, s: MState, before: seq<Entry>, batch: seq<Entry>)
    returns (replies: seq<ClientSend>)
    requires AllPending(s, batch) && Replays(s.storage, before)
    ensures Returned(k, s, before, batch, replies)
  {
    if batch == [] {
      replies := [];
      assert before + batch == before;
    } else {
      var front, last := batch[..|batch| - 1], batch[|batch| - 1];
      var first := BatchReturns(k, s, before, front);
      replies := OneMoreReturned(k, s, before, front, last, first);
      assert front + [last] == batch;
    }
  }

  lemma NodeReturns(k: Node, s: MState, m: GenericMessage, batch: seq<Entry>, before: seq<Entry>)
    returns (replies: seq<ClientSend>)
    requires m.body.AppendReply? && m.epoch == k.guide.epoch && s.applyEntries == [] && !PeerCrashes(k, s, m)
    requires batch == ReplyStep(s.smrs[m.body.groupId], k.n, m.body, m.from).applied
    requires Replays(s.storage, before)
    ensures MaybeApply(k, AppendReplyAt(k, s, m)).sent == s.sent + replies && ReturnsValues(before, batch, replies)
  {
    BatchWaits(k, s, m);
    replies := BatchReturns(k, AppendReplyAt(k, s, m), before, batch);
  }

  lemma ReplyReturns(n: nat, C: ClusterState, m: GenericMessage)
    requires 1 <= n <= KEY_SPACE && Settled(n, C) && GroupsOk(n, C) && m in C.net && m.body.AppendReply?
    requires m.to < n && ReplicaOk(C, m.to)
    ensures |Step(n, C, FromPeer(m)).past| == n
    ensures var before := C.past[m.to].answers;
            var after := Step(n, C, FromPeer(m)).past[m.to].answers;
            && before <= after
            && ReturnsValues(EntriesOf(before), EntriesOf(after[|before|..]), SentBy(n, C, FromPeer(m), m.to))
  {
    var batch := ReplyChanges(n, C, m);
    var C' := Step(n, C, FromPeer(m));
    StoreReplays(C, m.to);
    var replies := NodeReturns(NodeOf(n, m.to), C.nodes[m.to], m, batch, EntriesOf(C.past[m.to].answers));
    assert C'.nodes[m.to].sent == C.nodes[m.to].sent + replies;
    assert SentBy(n, C, FromPeer(m), m.to) == replies;
    assert EntriesOf(Answers(C.nodes[m.to].pendings, m.body.groupId, batch)) == batch;
  }

  lemma StoreReplays(C: ClusterState, r: nat)
    requires r < |C.nodes| && r < |C.past| && ReplicaOk(C, r)
    ensures Replays(C.nodes[r].storage, EntriesOf(C.past[r].answers))
  {
    forall key
      ensures Holds(C.nodes[r].storage, EntriesOf(C.past[r].answers), key)
    {
      assert StoreOk(C, r, key);
    }
  }

  // What a step makes replica r write to the clients whose operations it applies.
  lemma StepReturns(n: nat, C: ClusterState, ev: Event, r: nat)
    requires 1 <= n <= KEY_SPACE && Settled(n, C) && GroupsOk(n, C) && r < n && ReplicaOk(C, r) && ev.FromPeer?
    ensures |Step(n, C, ev).past| == n
    ensures var before, after := C.past[r].answers, Step(n, C, ev).past[r].answers;
            before <= after && ReturnsValues(EntriesOf(before), EntriesOf(after[|before|..]), SentBy(n, C, ev, r))
  {
    StepWritesOut(n, C, ev, r);
    if ev.m in C.net && ev.m.body.AppendReply? && ev.m.to == r {
      ReplyReturns(n, C, ev.m);
    } else {
      OthersAnswerNothing(n, C, ev, r);
    }
  }

  lemma OthersAnswerNothing(n: nat, C: ClusterState, ev: Event, r: nat)
    requires 1 <= n <= KEY_SPACE && Settled(n, C) && GroupsOk(n, C) && r < n && ev.FromPeer?
    requires ev.m in C.net ==> !ev.m.body.AppendReply? || ev.m.to != r
    ensures |Step(n, C, ev).past| == |Step(n, C, ev).nodes| == n
    ensures Step(n, C, ev).past[r].answers == C.past[r].answers && SentBy(n, C, ev, r) == []
  {
    if ev.m in C.net {
      InItsGroup(n, C, ev.m);
      if ev.m.body.Append? {
        AppendChanges(n, C, ev.m);
        assert Step(n, C, ev).nodes[r].sent == C.nodes[r].sent;
      } else {
        var batch := ReplyChanges(n, C, ev.m);
        assert Step(n, C, ev).nodes[r] == C.nodes[r];
      }
    }
  }

  lemma PrefixOfBoth(before: seq<Entry>, a: seq<Entry>, b: seq<Entry>, i: nat)
    requires i < |a| + |b|
    ensures before + (a + b)[..i] == if i < |a| then before + a[..i] else before + a + b[..i - |a|]
  {
    if i < |a| {
      assert (a + b)[..i] == a[..i];
    } else {
      assert (a + b)[..i] == a + b[..i - |a|];
    }
  }

  lemma ReturnsBoth(before: seq<Entry>, a: seq<Entry>, b: seq<Entry>, ra: seq<ClientSend>, rb: seq<ClientSend>)
    requires ReturnsValues(before, a, ra) && ReturnsValues(before + a, b, rb)
    ensures ReturnsValues(before, a + b, ra + rb)
  {
    forall i: nat | i < |a + b|
      ensures ReturnsValue(before + (a + b)[..i], (a + b)[i], (ra + rb)[i])
    {
      PrefixOfBoth(before, a, b, i);
      if i < |a| {
        assert ReturnsValue(before + a[..i], a[i], ra[i]);
      } else {
        assert ReturnsValue(before + a + b[..i - |a|], b[i - |a|], rb[i - |a|]);
      }
    }
  }

  /** Over any run, the replies to applied entries carry values as a store would give them: nothing for a write, and
      for any other operation in the log the value of the last write to its key that was applied before it. */
  lemma {:induction false} LoggedOperationsReturnValues(n: nat, events: seq<Event>, r: nat)
    requires ProperRun(n, events) && r < n
    ensures |Run(n, events).past| == n
    ensures ReturnsValues([], EntriesOf(Run(n, events).past[r].answers), EntryReplies(n, events, r))
  {
    if events == [] {
    } else {
      var front, last := events[..|events| - 1], events[|events| - 1];
      assert forall ev <- front :: ev in events;
      LoggedOperationsReturnValues(n, front, r);
      ClusterRefinesEveryGroup(n, front);
      RunStore(n, front, r);
      LastReturns(n, Run(n, front), last, r, EntryReplies(n, front, r));
    }
  }

  lemma LastReturns(n: nat, C: ClusterState, ev: Event, r: nat, replies: seq<ClientSend>)
    requires 1 <= n <= KEY_SPACE && Settled(n, C) && GroupsOk(n, C) && r < n && ReplicaOk(C, r)
    requires ReturnsValues([], EntriesOf(C.past[r].answers), replies)
    ensures |Step(n, C, ev).past| == n
    ensures ReturnsValues([], EntriesOf(Step(n, C, ev).past[r].answers),
                          replies + if ev.FromPeer? then SentBy(n, C, ev, r) else [])
  {
    StepWritesOut(n, C, ev, r);
    var before, after := C.past[r].answers, Step(n, C, ev).past[r].answers;
    if ev.FromPeer? {
      StepReturns(n, C, ev, r);
      var added := after[|before|..];
      assert after == before + added;
      EntriesOfBoth(before, added);
      assert [] + EntriesOf(before) == EntriesOf(before);
      ReturnsBoth([], EntriesOf(before), EntriesOf(added), replies, SentBy(n, C, ev, r));
    } else {
      assert replies + [] == replies;
    }
  }
}
