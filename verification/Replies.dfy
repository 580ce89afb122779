/** Which client is registered, and recorded as answered, for which log entry (m_client_pendings in
    core/morphling.cpp).  SentReplies ties the record to what is written to clients. */
module Replies {
  import opened Routing
  import opened Messages
  import opened ReplicatedLog
  import opened SmrSteps
  import opened MorphlingSteps
  import opened Cluster
  import R = Replication
  import Safety = ReplicationSafety

  // 1-based position of the last accepted write that got this log index, in whatever group; 0 if none.
  function LatestAt(writes: seq<Write>, index: nat): (at: nat)
    ensures at <= |writes|
    ensures at > 0 ==> writes[at - 1].index == index
    ensures forall j :: at <= j < |writes| ==> writes[j].index != index
  {
    if writes == [] then 0
    else if writes[|writes| - 1].index == index then |writes|
    else LatestAt(writes[..|writes| - 1], index)
  }

  function WritesIn(writes: seq<Write>, g: nat): seq<Write>
  {
    if writes == [] then []
    else
      var last := writes[|writes| - 1];
      WritesIn(writes[..|writes| - 1], g) + if last.gid == g then [last] else []
  }

  // The pending table knows, for each index, the last write that got it; and an owner's log has one
  // accepted write per entry, in order.
  ghost predicate TableOk(C: ClusterState, r: nat)
    requires r < |C.nodes| && r < |C.past|
  {
    forall i: nat :: TableHas(C.past[r].writes, C.nodes[r].pendings, i)
  }

  predicate TableHas(writes: seq<Write>, pendings: map<nat, Transport>, i: nat)
  {
    && (i in pendings <==> LatestAt(writes, i) > 0)
    && (i in pendings ==> pendings[i] == writes[LatestAt(writes, i) - 1].trans)
  }

  ghost predicate WritesMatchLog(n: nat, C: ClusterState, g: nat)
    requires 1 <= n <= KEY_SPACE && g < KEY_SPACE && Shaped(n, C)
  {
    var r := OwnerOf(n, g);
    var ws := WritesIn(C.past[r].writes, g);
    |ws| == |C.nodes[r].smrs[g].log| && Numbered(ws)
  }

  // The k-th write has index k+1.
  predicate Numbered(ws: seq<Write>)
  {
    forall k :: 0 <= k < |ws| ==> ws[k].index == k + 1
  }

  ghost predicate TablesOk(n: nat, C: ClusterState)
    requires 1 <= n <= KEY_SPACE
  {
    && Shaped(n, C)
    && (forall r :: 0 <= r < n ==> TableOk(C, r))
    && (forall g: nat :: g < KEY_SPACE ==> WritesMatchLog(n, C, g))
  }

  lemma LatestAfter(writes: seq<Write>, w: Write, i: nat)
    ensures LatestAt(writes + [w], i) == if w.index == i then |writes| + 1 else LatestAt(writes, i)
    ensures WritesIn(writes + [w], i) == WritesIn(writes, i) + if w.gid == i then [w] else []
  {
    assert (writes + [w])[..|writes|] == writes;
  }

  lemma TableAfterWrite(C: ClusterState, C': ClusterState, r: nat, w: Write)
    requires r < |C.nodes| == |C'.nodes| && r < |C.past| == |C'.past| && TableOk(C, r)
    requires C'.past[r].writes == C.past[r].writes + [w]
    requires C'.nodes[r].pendings == C.nodes[r].pendings[w.index := w.trans]
    ensures TableOk(C', r)
  {
    forall i: nat
      ensures TableHas(C'.past[r].writes, C'.nodes[r].pendings, i)
    {
      assert TableHas(C.past[r].writes, C.nodes[r].pendings, i);
      LatestAfter(C.past[r].writes, w, i);
    }
  }

  lemma LogAfterWrite(n: nat, C: ClusterState, C': ClusterState, r: nat, g0: nat, st: SmrState,
                      wire: set<GenericMessage>, w: Write, g: nat)
    requires 1 <= n <= KEY_SPACE && Shaped(n, C) && Shaped(n, C') && r < n && g < KEY_SPACE && WritesMatchLog(n, C, g)
    requires g0 < KEY_SPACE && r == OwnerOf(n, g0) && ChangedIn(n, C, C', r, g0, st, wire)
    requires C'.past == C.past[r := C.past[r].(writes := C.past[r].writes + [w])]
    requires w.gid == g0 && w.index == |st.log| == |C.nodes[r].smrs[g0].log| + 1
    ensures WritesMatchLog(n, C', g)
  {
    LatestAfter(C.past[r].writes, w, g);
  }

  lemma WriteKeepsTables(n: nat, C: ClusterState, r: nat, msg: ClientMessage, trans: Transport)
    requires 1 <= n <= KEY_SPACE && Settled(n, C) && GroupsOk(n, C) && TablesOk(n, C)
    requires IsWrite(n, msg) && Routed(n, FromClient(r, msg, trans))
    ensures TablesOk(n, Step(n, C, FromClient(r, msg, trans)))
  {
    var C' := Step(n, C, FromClient(r, msg, trans));
    var g0 := GroupOf(msg.keyHash);
    WriteSettles(n, C, r, msg, trans);
    WriteChanges(n, C, r, msg, trans);
    var step := OperationStep(C.nodes[r].smrs[g0], n, r, g0, msg);
    var w := Write(g0, |C.nodes[r].smrs[g0].log| + 1, trans);
    assert C'.past == C.past[r := C.past[r].(writes := C.past[r].writes + [w])];
    assert TableOk(C, r);
    TableAfterWrite(C, C', r, w);
    forall q | 0 <= q < n
      ensures TableOk(C', q)
    {
      assert TableOk(C, q);
    }
    forall g: nat | g < KEY_SPACE
      ensures WritesMatchLog(n, C', g)
    {
      LogAfterWrite(n, C, C', r, g0, step.state, R.Stamped(step.out, r, Guide(n).epoch), w, g);
    }
  }

  lemma PeerKeepsTables(n: nat, C: ClusterState, m: GenericMessage)
    requires 1 <= n <= KEY_SPACE && Settled(n, C) && GroupsOk(n, C) && TablesOk(n, C) && m in C.net
    ensures TablesOk(n, Step(n, C, FromPeer(m)))
  {
    InItsGroup(n, C, m);
    var g0, C' := m.body.groupId, Step(n, C, FromPeer(m));
    if m.body.Append? {
      AppendChanges(n, C, m);
      var step := AppendStep(C.nodes[m.to].smrs[g0], g0, m.body, m.from);
      ChangeKeepsTables(n, C, C', m.to, g0, step.state, R.Stamped(step.out, m.to, Guide(n).epoch));
    } else {
      var batch := ReplyChanges(n, C, m);
      ChangeKeepsTables(n, C, C', m.to, g0, ReplyStep(C.nodes[m.to].smrs[g0], n, m.body, m.from).state, {});
    }
  }

  // A change elsewhere than in an owner's log.
  lemma ChangeKeepsTables(n: nat, C: ClusterState, C': ClusterState, r: nat, g0: nat, st: SmrState,
                          wire: set<GenericMessage>)
    requires 1 <= n <= KEY_SPACE && TablesOk(n, C) && r < n && g0 < KEY_SPACE && ChangedIn(n, C, C', r, g0, st, wire)
    requires C'.nodes[r].pendings == C.nodes[r].pendings
    requires forall q :: 0 <= q < n ==> C'.past[q].writes == C.past[q].writes
    requires r == OwnerOf(n, g0) ==> st.log == C.nodes[r].smrs[g0].log
    ensures TablesOk(n, C')
  {
    forall g: nat | g < KEY_SPACE
      ensures C'.nodes[OwnerOf(n, g)].smrs[g].log == C.nodes[OwnerOf(n, g)].smrs[g].log
    {
    }
    QuietStepKeepsTables(n, C, C');
  }

  lemma OtherClientKeepsTables(n: nat, C: ClusterState, ev: Event)
    requires 1 <= n <= KEY_SPACE && Settled(n, C) && TablesOk(n, C) && IsQuiet(n, ev)
    ensures TablesOk(n, Step(n, C, ev))
  {
    QuietOnlySends(n, C, ev);
    QuietStepKeepsTables(n, C, Step(n, C, ev));
  }

  lemma StepKeepsTables(n: nat, C: ClusterState, ev: Event)
    requires 1 <= n <= KEY_SPACE && Settled(n, C) && GroupsOk(n, C) && TablesOk(n, C) && Routed(n, ev)
    ensures TablesOk(n, Step(n, C, ev))
  {
    match ev
    case FromClient(r, msg, trans) =>
      if IsWrite(n, msg) { WriteKeepsTables(n, C, r, msg, trans); } else { OtherClientKeepsTables(n, C, ev); }
    case GuidanceAsked(_, _) => OtherClientKeepsTables(n, C, ev);
    case FromPeer(m) =>
      if m in C.net { PeerKeepsTables(n, C, m); }
  }

  // No new write, no new client, and no owner's log changed.
  lemma QuietStepKeepsTables(n: nat, C: ClusterState, C': ClusterState)
    requires 1 <= n <= KEY_SPACE && TablesOk(n, C) && Shaped(n, C')
    requires forall r :: 0 <= r < n ==>
          C'.past[r].writes == C.past[r].writes && C'.nodes[r].pendings == C.nodes[r].pendings
    requires forall g: nat :: g < KEY_SPACE ==>
          C'.nodes[OwnerOf(n, g)].smrs[g].log == C.nodes[OwnerOf(n, g)].smrs[g].log
    ensures TablesOk(n, C')
  {
    forall r | 0 <= r < n
      ensures TableOk(C', r)
    {
      assert TableOk(C, r);
    }
    forall g: nat | g < KEY_SPACE
      ensures WritesMatchLog(n, C', g)
    {
      assert WritesMatchLog(n, C, g);
    }
  }

  lemma {:induction false} RunTables(n: nat, events: seq<Event>)
    requires 1 <= n <= KEY_SPACE && AllRouted(n, events)
    ensures TablesOk(n, Run(n, events))
  {
    if events == [] {
    } else {
      var front := events[..|events| - 1];
      assert forall ev <- front :: ev in events;
      RunTables(n, front);
      ClusterRefinesEveryGroup(n, front);
      StepKeepsTables(n, Run(n, front), events[|events| - 1]);
    }
  }

  // ---- Main results ----

  /** For each group, the entries recorded as answered at its owner are its committed entries, each once, in
      log order. */
  lemma {:induction false} CommittedRecordedOnce(n: nat, events: seq<Event>, g: nat)
    requires 1 <= n <= KEY_SPACE && AllRouted(n, events) && g < KEY_SPACE
    ensures var C := Run(n, events);
            var r := OwnerOf(n, g);
            && Settled(n, C) && C.nodes[r].smrs[g].commits <= |C.nodes[r].smrs[g].log|
            && AppliedIn(C.past[r].answers, g) == C.nodes[r].smrs[g].log[..C.nodes[r].smrs[g].commits]
            && forall k :: 0 <= k < |AppliedIn(C.past[r].answers, g)| ==>
                 AppliedIn(C.past[r].answers, g)[k].index == k + 1
  {
    ClusterRefinesEveryGroup(n, events);
    OwnerFacts(n, Run(n, events), g);
  }

  // Position of the write that created entry `index` of group g.
  function CreatorAt(writes: seq<Write>, g: nat, index: nat): (p: int)
    ensures p == -1 || (0 <= p < |writes| && writes[p].gid == g && writes[p].index == index)
    ensures p == -1 ==> forall j :: 0 <= j < |writes| ==> !(writes[j].gid == g && writes[j].index == index)
  {
    if writes == [] then -1
    else if writes[|writes| - 1].gid == g && writes[|writes| - 1].index == index then |writes| - 1
    else CreatorAt(writes[..|writes| - 1], g, index)
  }

  /** The client registered under an index is the creator's if and only if no later write, of another group,
      was given the same log index. */
  lemma {:induction false} CreatorRegisteredExactlyWhen(n: nat, events: seq<Event>, g: nat, index: nat)
    requires 1 <= n <= KEY_SPACE && AllRouted(n, events) && g < KEY_SPACE
    requires |Run(n, events).nodes| == |Run(n, events).past| == n
    requires |Run(n, events).nodes[OwnerOf(n, g)].smrs| == KEY_SPACE
    requires 1 <= index <= |Run(n, events).nodes[OwnerOf(n, g)].smrs[g].log|
    ensures var writes := Run(n, events).past[OwnerOf(n, g)].writes;
            var p := CreatorAt(writes, g, index);
            && p >= 0
            && (LatestAt(writes, index) - 1 == p
                <==> forall j :: p < j < |writes| && writes[j].gid != g ==> writes[j].index != index)
  {
    RunTables(n, events);
    assert WritesMatchLog(n, Run(n, events), g);
    CreatorIsLatestExactlyWhen(Run(n, events).past[OwnerOf(n, g)].writes, g, index);
  }

  lemma CreatorIsLatestExactlyWhen(writes: seq<Write>, g: nat, index: nat)
    requires 1 <= index <= |WritesIn(writes, g)| && Numbered(WritesIn(writes, g))
    ensures var p := CreatorAt(writes, g, index);
            && p >= 0
            && (LatestAt(writes, index) - 1 == p
                <==> forall j :: p < j < |writes| && writes[j].gid != g ==> writes[j].index != index)
  {
    InWrites(writes, g, index);
    var p, at := CreatorAt(writes, g, index), LatestAt(writes, index) - 1;
    if at != p && writes[at].gid == g {
      LaterWriteGreaterIndex(writes, g, p, at);
    }
  }

  lemma LastInGroup(writes: seq<Write>, g: nat)
    requires writes != [] && Numbered(WritesIn(writes, g))
    ensures Numbered(WritesIn(writes[..|writes| - 1], g))
    ensures writes[|writes| - 1].gid == g ==>
              && writes[|writes| - 1].index == |WritesIn(writes, g)|
              && |WritesIn(writes, g)| == |WritesIn(writes[..|writes| - 1], g)| + 1
  {
    var front, all := WritesIn(writes[..|writes| - 1], g), WritesIn(writes, g);
    assert forall k :: 0 <= k < |front| ==> front[k] == all[k];
    assert writes[|writes| - 1].gid == g ==> all[|front|] == writes[|writes| - 1];
  }

  lemma {:induction false} InWrites(writes: seq<Write>, g: nat, index: nat)
    requires 1 <= index <= |WritesIn(writes, g)| && Numbered(WritesIn(writes, g))
    ensures CreatorAt(writes, g, index) >= 0
  {
    LastInGroup(writes, g);
    var last := writes[|writes| - 1];
    if last.gid == g && last.index == index {
    } else {
      InWrites(writes[..|writes| - 1], g, index);
    }
  }

  // Every write of a group got an index no greater than the number of that group's writes, and a later one
  // a greater index.
  lemma {:induction false} IndexWithin(writes: seq<Write>, g: nat, p: nat)
    requires p < |writes| && writes[p].gid == g && Numbered(WritesIn(writes, g))
    ensures writes[p].index <= |WritesIn(writes, g)|
  {
    LastInGroup(writes, g);
    if p == |writes| - 1 {
    } else {
      IndexWithin(writes[..|writes| - 1], g, p);
    }
  }

  lemma {:induction false} LaterWriteGreaterIndex(writes: seq<Write>, g: nat, p: nat, q: nat)
    requires p < q < |writes| && writes[p].gid == writes[q].gid == g && Numbered(WritesIn(writes, g))
    ensures writes[p].index < writes[q].index
  {
    LastInGroup(writes, g);
    if q < |writes| - 1 {
      LaterWriteGreaterIndex(writes[..|writes| - 1], g, p, q);
    } else {
      IndexWithin(writes[..|writes| - 1], g, p);
    }
  }

  // ---- When all writes of a replica fall in one group ----

  predicate OneGroup(writes: seq<Write>, g: nat)
  {
    forall i :: 0 <= i < |writes| ==> writes[i].gid == g
  }

  // The k-th answer is for entry k+1 of group g, on the connection of the k-th write.
  predicate AnsweredInTurn(past: History, g: nat)
  {
    && |past.answers| <= |past.writes|
    && forall k :: 0 <= k < |past.answers| ==>
         && past.answers[k].gid == g && past.answers[k].entry.index == k + 1
         && past.answers[k].trans == past.writes[k].trans
  }

  lemma {:induction false} AllInGroup(writes: seq<Write>, g: nat)
    requires OneGroup(writes, g)
    ensures WritesIn(writes, g) == writes
    ensures forall g': nat :: g' != g ==> WritesIn(writes, g') == []
  {
    if writes == [] {
    } else {
      AllInGroup(writes[..|writes| - 1], g);
    }
  }

  lemma {:induction false} AllAnswersInGroup(answers: seq<Answer>, g: nat)
    requires forall k :: 0 <= k < |answers| ==> answers[k].gid == g
    ensures |AppliedIn(answers, g)| == |answers|
    ensures forall k :: 0 <= k < |answers| ==> AppliedIn(answers, g)[k] == answers[k].entry
  {
    if answers == [] {
    } else {
      AllAnswersInGroup(answers[..|answers| - 1], g);
    }
  }

  lemma LatestWhenNumbered(writes: seq<Write>, index: nat)
    requires Numbered(writes) && 1 <= index <= |writes|
    ensures LatestAt(writes, index) == index
  {
    assert writes[index - 1].index == index;
  }

  // The entries have the indices after `from`, none beyond `upTo`.
  predicate Continues(batch: seq<Entry>, from: nat, upTo: nat)
  {
    forall j :: 0 <= j < |batch| ==> batch[j].index == from + 1 + j <= upTo
  }

  lemma AnswerAt(before: seq<Answer>, pendings: map<nat, Transport>, g: nat, batch: seq<Entry>, k: nat)
    requires (forall e <- batch :: e.index in pendings) && |before| <= k < |before| + |batch|
    ensures batch[k - |before|].index in pendings
    ensures var e := batch[k - |before|];
            (before + Answers(pendings, g, batch))[k] == Answer(g, e, pendings[e.index])
  {
  }

  // Under the batch's indices the table has the connections of the writes that follow those answered.
  predicate TurnsHeld(past: History, pendings: map<nat, Transport>, batch: seq<Entry>)
  {
    forall j :: 0 <= j < |batch| ==>
      && batch[j].index in pendings && |past.answers| + j < |past.writes|
      && pendings[batch[j].index] == past.writes[|past.answers| + j].trans
  }

  // One answer of the batch is in turn.
  lemma TurnAt(past: History, pendings: map<nat, Transport>, batch: seq<Entry>, j: nat)
    requires Numbered(past.writes) && j < |batch| && batch[j].index in pendings
    requires TableHas(past.writes, pendings, batch[j].index)
    requires batch[j].index == |past.answers| + 1 + j <= |past.writes|
    ensures pendings[batch[j].index] == past.writes[|past.answers| + j].trans
  {
    LatestWhenNumbered(past.writes, batch[j].index);
  }

  lemma TurnAfterBatch(past: History, past': History, pendings: map<nat, Transport>, batch: seq<Entry>, g: nat)
    requires AnsweredInTurn(past, g) && past'.writes == past.writes
    requires forall e <- batch :: e.index in pendings
    requires Continues(batch, |past.answers|, |past.writes|)
    requires TurnsHeld(past, pendings, batch)
    requires past'.answers == past.answers + Answers(pendings, g, batch)
    ensures AnsweredInTurn(past', g)
  {
    if batch != [] {
      assert batch[|batch| - 1].index == |past.answers| + |batch|;
    }
    forall k | 0 <= k < |past'.answers|
      ensures past'.answers[k].gid == g && past'.answers[k].entry.index == k + 1
      ensures past'.answers[k].trans == past'.writes[k].trans
    {
      if k < |past.answers| {
        assert past'.answers[k] == past.answers[k];
      } else {
        AnswerAt(past.answers, pendings, g, batch, k);
      }
    }
  }

  // The batch continues where the answers given so far for the group end.
  lemma BatchContinues(n: nat, C: ClusterState, m: GenericMessage, batch: seq<Entry>)
    requires 1 <= n <= KEY_SPACE && Settled(n, C) && GroupsOk(n, C) && m in C.net && m.body.AppendReply?
    requires m.to < n && m.body.groupId < KEY_SPACE && !PeerAborts(NodeOf(n, m.to), C.nodes[m.to], m)
    requires m.epoch == Guide(n).epoch
    requires batch == ReplyStep(C.nodes[m.to].smrs[m.body.groupId], n, m.body, m.from).applied
    ensures m.to == OwnerOf(n, m.body.groupId)
    ensures Continues(batch, |AppliedIn(C.past[m.to].answers, m.body.groupId)|,
                      |C.nodes[m.to].smrs[m.body.groupId].log|)
  {
    var g := m.body.groupId;
    InItsGroup(n, C, m);
    OwnerFacts(n, C, g);
    R.ReplyDelivery(GroupConfig(n, g), Project(n, C, g), m);
    SliceIndices(C.nodes[m.to].smrs[g], ReplyStep(C.nodes[m.to].smrs[g], n, m.body, m.from).state.commits);
  }

  lemma SliceIndices(s: SmrState, upTo: nat)
    requires WellIndexed(s.log) && s.commits <= upTo <= |s.log|
    ensures forall i :: 0 <= i < upTo - s.commits ==> s.log[s.commits..upTo][i].index == s.commits + 1 + i <= |s.log|
  {
  }

  // The table holds the connections of the writes whose turn it is.
  lemma TurnsOf(C: ClusterState, r: nat, batch: seq<Entry>)
    requires r < |C.nodes| && r < |C.past| && TableOk(C, r) && Numbered(C.past[r].writes)
    requires forall e <- batch :: e.index in C.nodes[r].pendings
    requires Continues(batch, |C.past[r].answers|, |C.past[r].writes|)
    ensures TurnsHeld(C.past[r], C.nodes[r].pendings, batch)
  {
    forall j | 0 <= j < |batch|
      ensures C.nodes[r].pendings[batch[j].index] == C.past[r].writes[|C.past[r].answers| + j].trans
    {
      assert batch[j] in batch;
      assert TableHas(C.past[r].writes, C.nodes[r].pendings, batch[j].index);
      TurnAt(C.past[r], C.nodes[r].pendings, batch, j);
    }
  }

  // A non-empty batch is of the one group there are writes in, and continues its answers.
  lemma BatchReady(n: nat, C: ClusterState, m: GenericMessage, batch: seq<Entry>, g: nat)
    requires 1 <= n <= KEY_SPACE && Settled(n, C) && GroupsOk(n, C) && TablesOk(n, C)
    requires m in C.net && m.body.AppendReply? && m.to < n && m.body.groupId < KEY_SPACE
    requires !PeerAborts(NodeOf(n, m.to), C.nodes[m.to], m) && m.epoch == Guide(n).epoch
    requires batch == ReplyStep(C.nodes[m.to].smrs[m.body.groupId], n, m.body, m.from).applied && batch != []
    requires OneGroup(C.past[m.to].writes, g) && AnsweredInTurn(C.past[m.to], g)
    ensures m.body.groupId == g && Numbered(C.past[m.to].writes)
    ensures Continues(batch, |C.past[m.to].answers|, |C.past[m.to].writes|)
  {
    BatchContinues(n, C, m, batch);
    AllInGroup(C.past[m.to].writes, g);
    assert WritesMatchLog(n, C, m.body.groupId);
    assert batch[0].index >= 1;
    AllAnswersInGroup(C.past[m.to].answers, g);
  }

  lemma BatchInTurn(n: nat, C: ClusterState, m: GenericMessage, g: nat)
    requires 1 <= n <= KEY_SPACE && Settled(n, C) && GroupsOk(n, C) && TablesOk(n, C)
    requires m in C.net && m.body.AppendReply?
    requires m.to < n && OneGroup(C.past[m.to].writes, g) && AnsweredInTurn(C.past[m.to], g)
    ensures |Step(n, C, FromPeer(m)).past| == n && AnsweredInTurn(Step(n, C, FromPeer(m)).past[m.to], g)
  {
    var batch := ReplyChanges(n, C, m);
    var past' := Step(n, C, FromPeer(m)).past[m.to];
    if batch == [] {
      assert past'.answers == C.past[m.to].answers;
    } else {
      BatchReady(n, C, m, batch, g);
      assert TurnsHeld(C.past[m.to], C.nodes[m.to].pendings, batch) by {
        assert TableOk(C, m.to);
        TurnsOf(C, m.to, batch);
      }
      TurnAfterBatch(C.past[m.to], past', C.nodes[m.to].pendings, batch, g);
    }
  }

  // The replica accepts a write.
  predicate AcceptedAt(n: nat, ev: Event, r: nat)
    requires n >= 1
  {
    ev.FromClient? && ev.r == r && IsWrite(n, ev.msg)
  }

  lemma ReplyKeepsRecord(n: nat, C: ClusterState, m: GenericMessage, r: nat)
    requires 1 <= n <= KEY_SPACE && Settled(n, C) && GroupsOk(n, C) && m in C.net && m.body.AppendReply? && r < n
    ensures |Step(n, C, FromPeer(m)).past| == n && Step(n, C, FromPeer(m)).past[r].writes == C.past[r].writes
  {
    var batch := ReplyChanges(n, C, m);
  }

  lemma PeerKeepsRecord(n: nat, C: ClusterState, m: GenericMessage, r: nat)
    requires 1 <= n <= KEY_SPACE && Settled(n, C) && GroupsOk(n, C) && r < n
    ensures |Step(n, C, FromPeer(m)).past| == n && Step(n, C, FromPeer(m)).past[r].writes == C.past[r].writes
  {
    if m in C.net {
      InItsGroup(n, C, m);
      if m.body.Append? {
        AppendChanges(n, C, m);
      } else {
        ReplyKeepsRecord(n, C, m, r);
      }
    }
  }

  lemma StepRecords(n: nat, C: ClusterState, ev: Event, r: nat)
    requires 1 <= n <= KEY_SPACE && Settled(n, C) && GroupsOk(n, C) && r < n
    ensures |Step(n, C, ev).past| == n
    ensures Step(n, C, ev).past[r].writes == C.past[r].writes
            + if AcceptedAt(n, ev, r)
              then [Write(GroupOf(ev.msg.keyHash), |C.nodes[r].smrs[GroupOf(ev.msg.keyHash)].log| + 1, ev.trans)]
              else []
  {
    if ev.FromPeer? {
      PeerKeepsRecord(n, C, ev.m, r);
    }
  }

  lemma PeerInTurn(n: nat, C: ClusterState, m: GenericMessage, r: nat, g: nat)
    requires 1 <= n <= KEY_SPACE && Settled(n, C) && GroupsOk(n, C) && TablesOk(n, C) && r < n
    requires |Step(n, C, FromPeer(m)).past| == n && OneGroup(C.past[r].writes, g) && AnsweredInTurn(C.past[r], g)
    ensures AnsweredInTurn(Step(n, C, FromPeer(m)).past[r], g)
  {
    if m in C.net {
      InItsGroup(n, C, m);
      if m.body.Append? {
        AppendChanges(n, C, m);
      } else if r == m.to {
        BatchInTurn(n, C, m, g);
      } else {
        var batch := ReplyChanges(n, C, m);
      }
    }
  }

  lemma StepInTurn(n: nat, C: ClusterState, ev: Event, r: nat, g: nat)
    requires 1 <= n <= KEY_SPACE && Settled(n, C) && GroupsOk(n, C) && TablesOk(n, C) && Routed(n, ev) && r < n
    requires |Step(n, C, ev).past| == n && OneGroup(Step(n, C, ev).past[r].writes, g)
    requires OneGroup(C.past[r].writes, g) ==> AnsweredInTurn(C.past[r], g)
    ensures AnsweredInTurn(Step(n, C, ev).past[r], g)
  {
    var past, past' := C.past[r], Step(n, C, ev).past[r];
    StepRecords(n, C, ev, r);
    assert past.writes <= past'.writes;
    if ev.FromPeer? {
      PeerInTurn(n, C, ev.m, r, g);
    } else {
      ClientKeepsAnswers(n, C, ev, r);
    }
  }

  lemma ClientKeepsAnswers(n: nat, C: ClusterState, ev: Event, r: nat)
    requires 1 <= n <= KEY_SPACE && Settled(n, C) && r < n && !ev.FromPeer?
    ensures |Step(n, C, ev).past| == n && Step(n, C, ev).past[r].answers == C.past[r].answers
  {
  }

  /** In a run in which all writes a replica accepted fall in one group, the k-th committed operation is
      recorded as answered on the connection the k-th write came from, the one that created its entry. */
  lemma {:induction false} OneGroupInTurn(n: nat, events: seq<Event>, r: nat, g: nat)
    requires 1 <= n <= KEY_SPACE && AllRouted(n, events) && r < n
    requires |Run(n, events).past| == n && OneGroup(Run(n, events).past[r].writes, g)
    ensures AnsweredInTurn(Run(n, events).past[r], g)
    ensures Settled(n, Run(n, events))
    ensures g < KEY_SPACE && r == OwnerOf(n, g) ==>
              |Run(n, events).past[r].answers| == Run(n, events).nodes[r].smrs[g].commits
  {
    ClusterRefinesEveryGroup(n, events);
    if events == [] {
    } else {
      var front := events[..|events| - 1];
      assert forall ev <- front :: ev in events;
      ClusterRefinesEveryGroup(n, front);
      RunTables(n, front);
      if OneGroup(Run(n, front).past[r].writes, g) {
        OneGroupInTurn(n, front, r, g);
      }
      StepInTurn(n, Run(n, front), events[|events| - 1], r, g);
    }
    if g < KEY_SPACE && r == OwnerOf(n, g) {
      CommittedRecordedOnce(n, events, g);
      AllAnswersInGroup(Run(n, events).past[r].answers, g);
    }
  }
}
