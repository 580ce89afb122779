/** Each key behaves as one register: every read and every write takes effect at one event of the run, a read at its
    own and a write between the arrival of the operation and its answer. */
module Linearizability {
  import opened Routing
  import opened Messages
  import opened ReplicatedLog
  import opened SmrSteps
  import opened MorphlingSteps
  import opened Cluster
  import opened KeyValue
  import opened Replies
  import opened SentReplies
  import R = Replication
  import Safety = ReplicationSafety

  // What happens to a key: the entry `index` of its group writes it, or a client is sent its value.
  datatype Effect = Wrote(index: nat, data: Bytes) | Returned(data: Bytes, trans: Transport)

  function WritesTo(entries: seq<Entry>, key: KeyHash): seq<Effect>
  {
    if entries == [] then []
    else
      var last := entries[|entries| - 1];
      WritesTo(entries[..|entries| - 1], key) + if IsWriteTo(last, key) then [Wrote(last.index, last.data.data)] else []
  }

  predicate IsReadOf(n: nat, ev: Event, key: KeyHash)
    requires 1 <= n <= KEY_SPACE
  {
    && ev.FromClient? && ev.r == OwnerOf(n, GroupOf(key)) && ev.msg.keyHash == key
    && ev.msg.epoch == Guide(n).epoch && ev.msg.op.opType == READ
  }

  // The effects of one event: a read returns what is written to its client; a peer's message makes the owner apply.
  function EffectsOf(n: nat, C: ClusterState, ev: Event, key: KeyHash): seq<Effect>
    requires 1 <= n <= KEY_SPACE
  {
    var r := OwnerOf(n, GroupOf(key));
    var C' := Step(n, C, ev);
    if r >= |C.nodes| || r >= |C.past| || r >= |C'.past| then []
    else if IsReadOf(n, ev, key) then ValuesIn(SentBy(n, C, ev, r))
    else if ev.FromPeer? && |C.past[r].answers| <= |C'.past[r].answers| then
      WritesTo(EntriesOf(C'.past[r].answers[|C.past[r].answers|..]), key)
    else []
  }

  function ValuesIn(sends: seq<ClientSend>): seq<Effect>
  {
    if sends == [] then []
    else if sends[0].msg.ClientReply? then
      [Returned(sends[0].msg.replyData, sends[0].trans)] + ValuesIn(sends[1..])
    else ValuesIn(sends[1..])
  }

  function Effects(n: nat, events: seq<Event>, key: KeyHash): seq<Effect>
    requires 1 <= n <= KEY_SPACE
  {
    if events == [] then []
    else
      var front := events[..|events| - 1];
      Effects(n, front, key) + EffectsOf(n, Run(n, front), events[|events| - 1], key)
  }

  // ---- A register ----

  // Its value after these effects.
  function Value(effects: seq<Effect>): Bytes
  {
    if effects == [] then []
    else match effects[|effects| - 1]
      case Wrote(_, data) => data
      case Returned(_, _) => Value(effects[..|effects| - 1])
  }

  // Every read returns the value left by the effects before it.
  predicate LegalRegister(effects: seq<Effect>)
  {
    effects == [] ||
    var front, last := effects[..|effects| - 1], effects[|effects| - 1];
    LegalRegister(front) && (last.Returned? ==> last.data == Value(front))
  }

  lemma OneMore(effects: seq<Effect>, e: Effect)
    ensures Value(effects + [e]) == if e.Wrote? then e.data else Value(effects)
    ensures LegalRegister(effects + [e])
            <==> LegalRegister(effects) && (e.Returned? ==> e.data == Value(effects))
  {
    assert (effects + [e])[..|effects|] == effects;
  }

  lemma {:induction false} WritesAreLegal(effects: seq<Effect>, entries: seq<Entry>, key: KeyHash)
    requires LegalRegister(effects)
    ensures LegalRegister(effects + WritesTo(entries, key))
    ensures Value(effects + WritesTo(entries, key))
            == if LastWriteAt(entries, key) > 0 then LastWrite(entries, key) else Value(effects)
  {
    if entries == [] {
      assert effects + WritesTo(entries, key) == effects;
    } else {
      var front, last := entries[..|entries| - 1], entries[|entries| - 1];
      WritesAreLegal(effects, front, key);
      LastWriteStep(entries, key);
      if IsWriteTo(last, key) {
        var e := Wrote(last.index, last.data.data);
        OneMore(effects + WritesTo(front, key), e);
        assert WritesTo(entries, key) == WritesTo(front, key) + [e];
        assert effects + (WritesTo(front, key) + [e]) == effects + WritesTo(front, key) + [e];
      } else {
        assert WritesTo(entries, key) == WritesTo(front, key);
      }
    }
  }

  function JustWrites(effects: seq<Effect>): seq<Effect>
  {
    if effects == [] then []
    else
      var last := effects[|effects| - 1];
      JustWrites(effects[..|effects| - 1]) + if last.Wrote? then [last] else []
  }

  lemma JustWritesMore(effects: seq<Effect>, e: Effect)
    ensures JustWrites(effects + [e]) == JustWrites(effects) + if e.Wrote? then [e] else []
  {
    assert (effects + [e])[..|effects|] == effects;
  }

  lemma {:induction false} WritesAdded(effects: seq<Effect>, entries: seq<Entry>, key: KeyHash)
    ensures JustWrites(effects + WritesTo(entries, key)) == JustWrites(effects) + WritesTo(entries, key)
  {
    if entries == [] {
      assert effects + WritesTo(entries, key) == effects;
    } else {
      var front, last := entries[..|entries| - 1], entries[|entries| - 1];
      WritesAdded(effects, front, key);
      if IsWriteTo(last, key) {
        var e := Wrote(last.index, last.data.data);
        JustWritesMore(effects + WritesTo(front, key), e);
        assert WritesTo(entries, key) == WritesTo(front, key) + [e];
        assert effects + (WritesTo(front, key) + [e]) == effects + WritesTo(front, key) + [e];
      } else {
        assert WritesTo(entries, key) == WritesTo(front, key);
      }
    }
  }

  lemma {:induction false} WritesToBoth(a: seq<Entry>, b: seq<Entry>, key: KeyHash)
    ensures WritesTo(a + b, key) == WritesTo(a, key) + WritesTo(b, key)
  {
    if b == [] {
      assert a + b == a;
    } else {
      var front, last := b[..|b| - 1], b[|b| - 1];
      WritesToBoth(a, front, key);
      assert (a + b)[..|a + b| - 1] == a + front && (a + b)[|a + b| - 1] == last;
    }
  }

  // Only entries of the key's group write it.
  lemma {:induction false} OnlyItsGroupWrites(answers: seq<Answer>, key: KeyHash)
    requires AnswersInGroup(answers)
    ensures WritesTo(EntriesOf(answers), key) == WritesTo(AppliedIn(answers, GroupOf(key)), key)
  {
    if answers == [] {
    } else {
      var front, last := answers[..|answers| - 1], answers[|answers| - 1];
      assert forall a <- front :: a in answers;
      OnlyItsGroupWrites(front, key);
      assert last in answers;
      assert EntriesOf(answers) == EntriesOf(front) + [last.entry];
      WritesToBoth(EntriesOf(front), [last.entry], key);
      WritesToOne(last.entry, key);
      if last.gid == GroupOf(key) {
        WritesToBoth(AppliedIn(front, GroupOf(key)), [last.entry], key);
        assert AppliedIn(answers, GroupOf(key)) == AppliedIn(front, GroupOf(key)) + [last.entry];
      } else {
        assert AppliedIn(answers, GroupOf(key)) == AppliedIn(front, GroupOf(key));
        assert WritesTo(EntriesOf(front), key) + [] == WritesTo(EntriesOf(front), key);
      }
    }
  }

  lemma WritesToOne(e: Entry, key: KeyHash)
    ensures WritesTo([e], key) == if IsWriteTo(e, key) then [Wrote(e.index, e.data.data)] else []
  {
    assert WritesTo([e][..0], key) == [];
  }

  // The register has seen the writes among the applied entries, each once, and holds what they leave.
  ghost predicate RegisterOk(C: ClusterState, r: nat, key: KeyHash, effects: seq<Effect>)
    requires r < |C.past|
  {
    && LegalRegister(effects) && Value(effects) == LastWrite(EntriesOf(C.past[r].answers), key)
    && JustWrites(effects) == WritesTo(EntriesOf(C.past[r].answers), key)
  }

  lemma OneValue(send: ClientSend)
    requires send.msg.ClientReply?
    ensures ValuesIn([send]) == [Returned(send.msg.replyData, send.trans)]
  {
    assert ValuesIn([send][1..]) == [];
  }

  lemma {:induction false} ReadKeepsRegister(n: nat, C: ClusterState, ev: Event, key: KeyHash, effects: seq<Effect>)
    requires 1 <= n <= KEY_SPACE && Settled(n, C) && IsReadOf(n, ev, key)
    requires StoreOk(C, OwnerOf(n, GroupOf(key)), key) && RegisterOk(C, OwnerOf(n, GroupOf(key)), key, effects)
    ensures |Step(n, C, ev).past| == n
    ensures EffectsOf(n, C, ev, key) == [Returned(Value(effects), ev.trans)]
    ensures RegisterOk(Step(n, C, ev), OwnerOf(n, GroupOf(key)), key, effects + EffectsOf(n, C, ev, key))
  {
    var r := OwnerOf(n, GroupOf(key));
    ClientWritesOut(n, C, ev, r);
    OneValue(ClientSend(ev.trans, ReplyData(NodeOf(n, r), key, Value(effects))));
    assert SentBy(n, C, ev, r) == [ClientSend(ev.trans, ReplyData(NodeOf(n, r), key, Value(effects)))];
    OneMore(effects, Returned(Value(effects), ev.trans));
    JustWritesMore(effects, Returned(Value(effects), ev.trans));
  }

  lemma {:induction false} PeerKeepsRegister(n: nat, C: ClusterState, ev: Event, key: KeyHash, effects: seq<Effect>)
    requires 1 <= n <= KEY_SPACE && Settled(n, C) && GroupsOk(n, C) && ev.FromPeer?
    requires RegisterOk(C, OwnerOf(n, GroupOf(key)), key, effects)
    ensures |Step(n, C, ev).past| == n
    ensures RegisterOk(Step(n, C, ev), OwnerOf(n, GroupOf(key)), key, effects + EffectsOf(n, C, ev, key))
  {
    var r := OwnerOf(n, GroupOf(key));
    var C' := Step(n, C, ev);
    StepWritesOut(n, C, ev, r);
    var before, added := C.past[r].answers, C'.past[r].answers[|C.past[r].answers|..];
    assert C'.past[r].answers == before + added;
    EntriesOfBoth(before, added);
    WritesAreLegal(effects, EntriesOf(added), key);
    LastWriteOfBoth(EntriesOf(before), EntriesOf(added), key);
    WritesAdded(effects, EntriesOf(added), key);
    WritesToBoth(EntriesOf(before), EntriesOf(added), key);
  }

  lemma {:induction false} OtherKeepsRegister(n: nat, C: ClusterState, ev: Event, key: KeyHash, effects: seq<Effect>)
    requires 1 <= n <= KEY_SPACE && Settled(n, C) && !ev.FromPeer? && !IsReadOf(n, ev, key)
    requires RegisterOk(C, OwnerOf(n, GroupOf(key)), key, effects)
    ensures |Step(n, C, ev).past| == n
    ensures RegisterOk(Step(n, C, ev), OwnerOf(n, GroupOf(key)), key, effects + EffectsOf(n, C, ev, key))
  {
    ClientWritesOut(n, C, ev, OwnerOf(n, GroupOf(key)));
    assert effects + EffectsOf(n, C, ev, key) == effects;
  }

  lemma {:induction false} RunRegister(n: nat, events: seq<Event>, key: KeyHash)
    requires ProperRun(n, events)
    ensures |Run(n, events).past| == n
    ensures RegisterOk(Run(n, events), OwnerOf(n, GroupOf(key)), key, Effects(n, events, key))
  {
    if events == [] {
    } else {
      var front, last := events[..|events| - 1], events[|events| - 1];
      assert forall ev <- front :: ev in events;
      var C, r, effects := Run(n, front), OwnerOf(n, GroupOf(key)), Effects(n, front, key);
      RunRegister(n, front, key);
      ClusterRefinesEveryGroup(n, front);
      RunStore(n, front, r);
      assert StoreOk(C, r, key);
      if last.FromPeer? {
        PeerKeepsRegister(n, C, last, key, effects);
      } else if IsReadOf(n, last, key) {
        ReadKeepsRegister(n, C, last, key, effects);
      } else {
        OtherKeepsRegister(n, C, last, key, effects);
      }
    }
  }

  /** Reads and writes of a key, in the order of the events at which they take effect, are a legal history of one
      register: what each read returned to its client is the value of the last write before it; and the writes are
      the committed ones, each once, in log order. */
  lemma {:induction false} EachKeyIsARegister(n: nat, events: seq<Event>, key: KeyHash)
    requires ProperRun(n, events)
    ensures LegalRegister(Effects(n, events, key))
    ensures var C, g := Run(n, events), GroupOf(key);
            && Settled(n, C) && C.nodes[OwnerOf(n, g)].smrs[g].commits <= |GroupLog(n, C, g)|
            && JustWrites(Effects(n, events, key)) == WritesTo(CommittedLog(n, C, g), key)
  {
    var r := OwnerOf(n, GroupOf(key));
    RunRegister(n, events, key);
    RunStore(n, events, r);
    OnlyItsGroupWrites(Run(n, events).past[r].answers, key);
    CommittedAnsweredOnce(n, events, GroupOf(key));
  }

  /** A read appears in the history at its own event, with the value sent to its client. */
  lemma {:induction false} ReadTakesEffectAtOnce(n: nat, events: seq<Event>, ev: Event, key: KeyHash)
    requires ProperRun(n, events) && IsReadOf(n, ev, key)
    ensures Effects(n, events + [ev], key)
            == Effects(n, events, key) + [Returned(Value(Effects(n, events, key)), ev.trans)]
    ensures var r := OwnerOf(n, GroupOf(key));
            && |Run(n, events).nodes| == |Run(n, events + [ev]).nodes| == n
            && Run(n, events + [ev]).nodes[r].sent
               == Run(n, events).nodes[r].sent
                  + [ClientSend(ev.trans, ReplyData(NodeOf(n, r), key, Value(Effects(n, events, key))))]
  {
    var r := OwnerOf(n, GroupOf(key));
    RunRegister(n, events, key);
    RunStore(n, events, r);
    assert StoreOk(Run(n, events), r, key);
    ReadKeepsRegister(n, Run(n, events), ev, key, Effects(n, events, key));
    ClientAnsweredAtOnce(n, events, ev, r);
    assert (events + [ev])[..|events|] == events;
  }

  // ---- When a write takes effect ----

  function OwnersPart(n: nat, events: seq<Event>, g: nat): SmrState
    requires 1 <= n <= KEY_SPACE && g < KEY_SPACE
  {
    var C := Run(n, events);
    if OwnerOf(n, g) < |C.nodes| && g < |C.nodes[OwnerOf(n, g)].smrs| then C.nodes[OwnerOf(n, g)].smrs[g] else FRESH
  }

  // One event appends at most the operation it brings, and only a reply commits.
  predicate OwnerMoves(o: SmrState, o': SmrState, ev: R.Event)
  {
    && o.commits <= |o.log| && o.commits <= o'.commits <= |o'.log|
    && o'.log == (if ev.Propose? then o.log + [Entry(ev.msg.epoch, |o.log| + 1, ev.msg.op)] else o.log)
    && (o'.commits > o.commits ==> ev.Deliver? && ev.m.body.AppendReply?)
  }

  lemma OwnerBounds(c: R.Config, s: R.System)
    requires R.Inv(c, s)
    ensures c.owner < |s.reps| == c.n && WellIndexed(s.reps[c.owner].log)
    ensures s.reps[c.owner].commits <= |s.reps[c.owner].log|
  {
  }

  lemma OwnerGrows(c: R.Config, s: R.System, s': R.System)
    requires R.Grows(s, s') && c.owner < |s.reps|
    ensures c.owner < |s'.reps| && s.reps[c.owner].commits <= s'.reps[c.owner].commits
  {
  }

  lemma {:induction false} OwnersPartSteps(c: R.Config, s: R.System, ev: R.Event)
    requires R.Inv(c, s)
    ensures c.owner < |s.reps| == |R.Step(c, s, ev).reps|
    ensures OwnerMoves(s.reps[c.owner], R.Step(c, s, ev).reps[c.owner], ev)
  {
    R.StepKeeps(c, s, ev);
    OwnerBounds(c, s);
    OwnerBounds(c, R.Step(c, s, ev));
    OwnerGrows(c, s, R.Step(c, s, ev));
    Safety.OwnerLogStep(c, s, ev);
    LastIndexIsLength(s.reps[c.owner].log);
    if ev.Propose? || !ev.m.body.AppendReply? {
      OnlyRepliesCommit(c, s, ev);
    }
  }

  lemma ProjectedPart(n: nat, C: ClusterState, g: nat)
    requires 1 <= n <= KEY_SPACE && Shaped(n, C) && g < KEY_SPACE
    ensures Project(n, C, g).reps[OwnerOf(n, g)] == C.nodes[OwnerOf(n, g)].smrs[g]
  {
  }

  lemma {:induction false} OwnersStep(n: nat, events: seq<Event>, ev: Event, g: nat)
    requires 1 <= n <= KEY_SPACE && AllRouted(n, events) && Routed(n, ev) && g < KEY_SPACE
    ensures OwnerMoves(OwnersPart(n, events, g), OwnersPart(n, events + [ev], g), ProjectEvent(n, g, ev))
    ensures ProjectEvent(n, g, ev).Propose?
            <==> AcceptedAt(n, ev, OwnerOf(n, g)) && GroupOf(ev.msg.keyHash) == g
    ensures ProjectEvent(n, g, ev).Propose? ==> ProjectEvent(n, g, ev).msg == ev.msg
    ensures ProjectEvent(n, g, ev).Deliver? && ProjectEvent(n, g, ev).m.body.AppendReply? ==>
              ev.FromPeer? && InGroup(ev.m, g) && ev.m.body.AppendReply?
  {
    var c, C := GroupConfig(n, g), Run(n, events);
    assert (events + [ev])[..|events|] == events;
    ClusterRefinesEveryGroup(n, events);
    ProjectedPart(n, C, g);
    StepRefinesGroup(n, C, ev, g);
    OwnersPartSteps(c, Project(n, C, g), ProjectEvent(n, g, ev));
    ProjectedPart(n, Step(n, C, ev), g);
  }

  lemma OnlyRepliesCommit(c: R.Config, s: R.System, ev: R.Event)
    requires R.Inv(c, s) && |R.Step(c, s, ev).reps| == c.n
    requires ev.Deliver? ==> !ev.m.body.AppendReply?
    ensures R.Step(c, s, ev).reps[c.owner].commits == s.reps[c.owner].commits
  {
    if ev.Deliver? && ev.m in s.net {
      assert R.MessageOk(c, s, ev.m);
      R.AppendIsOneReply(c, s, ev.m);
    }
  }

  // Entry i of the group's log arrived at its owner with event p.
  ghost predicate Arrives(n: nat, events: seq<Event>, g: nat, i: nat, p: nat)
    requires 1 <= n <= KEY_SPACE && g < KEY_SPACE
  {
    && p < |events| && AcceptedAt(n, events[p], OwnerOf(n, g)) && GroupOf(events[p].msg.keyHash) == g
    && |OwnersPart(n, events[..p], g).log| == i < |OwnersPart(n, events, g).log|
    && OwnersPart(n, events, g).log[i] == Entry(events[p].msg.epoch, i + 1, events[p].msg.op)
  }

  // Entry i is committed, and so applied, at its owner by event t.
  ghost predicate Commits(n: nat, events: seq<Event>, g: nat, i: nat, t: nat)
    requires 1 <= n <= KEY_SPACE && g < KEY_SPACE
  {
    && t < |events| && events[t].FromPeer? && InGroup(events[t].m, g) && events[t].m.body.AppendReply?
    && OwnersPart(n, events[..t], g).commits <= i < OwnersPart(n, events[..t + 1], g).commits
    && OwnersPart(n, events[..t], g).log <= OwnersPart(n, events, g).log
  }

  lemma StillArrives(n: nat, front: seq<Event>, last: Event, g: nat, i: nat, p: nat)
    requires 1 <= n <= KEY_SPACE && g < KEY_SPACE && Arrives(n, front, g, i, p)
    requires OwnersPart(n, front, g).log <= OwnersPart(n, front + [last], g).log
    ensures Arrives(n, front + [last], g, i, p)
  {
    assert front[..p] == (front + [last])[..p];
  }

  lemma StillCommits(n: nat, front: seq<Event>, last: Event, g: nat, i: nat, t: nat)
    requires 1 <= n <= KEY_SPACE && g < KEY_SPACE && Commits(n, front, g, i, t)
    requires OwnersPart(n, front, g).log <= OwnersPart(n, front + [last], g).log
    ensures Commits(n, front + [last], g, i, t)
  {
    assert front[..t] == (front + [last])[..t] && front[..t + 1] == (front + [last])[..t + 1];
  }

  lemma PrefixRoutedToo(n: nat, front: seq<Event>, last: Event)
    requires 1 <= n <= KEY_SPACE && AllRouted(n, front + [last])
    ensures AllRouted(n, front) && Routed(n, last)
  {
    assert forall ev <- front :: ev in front + [last];
    assert last in front + [last];
  }

  lemma {:induction false} ArrivedAt(n: nat, events: seq<Event>, g: nat, i: nat) returns (p: nat)
    requires 1 <= n <= KEY_SPACE && AllRouted(n, events) && g < KEY_SPACE && i < |OwnersPart(n, events, g).log|
    ensures Arrives(n, events, g, i, p)
  {
    assert events != [];
    var front, last := events[..|events| - 1], events[|events| - 1];
    assert events == front + [last];
    PrefixRoutedToo(n, front, last);
    OwnersStep(n, front, last, g);
    if i < |OwnersPart(n, front, g).log| {
      p := ArrivedAt(n, front, g, i);
      StillArrives(n, front, last, g, i, p);
    } else {
      p := |events| - 1;
    }
  }

  lemma {:induction false} CommittedAt(n: nat, events: seq<Event>, g: nat, i: nat) returns (t: nat)
    requires 1 <= n <= KEY_SPACE && AllRouted(n, events) && g < KEY_SPACE && i < OwnersPart(n, events, g).commits
    ensures Commits(n, events, g, i, t)
  {
    assert events != [];
    var front, last := events[..|events| - 1], events[|events| - 1];
    assert events == front + [last];
    PrefixRoutedToo(n, front, last);
    OwnersStep(n, front, last, g);
    if i < OwnersPart(n, front, g).commits {
      t := CommittedAt(n, front, g, i);
      StillCommits(n, front, last, g, i, t);
    } else {
      t := |events| - 1;
      assert events[..t] == front && events[..t + 1] == events;
    }
  }

  // What the event makes its replica write answers this entry.
  ghost predicate AnswersEntry(n: nat, C: ClusterState, ev: Event, r: nat, e: Entry)
    requires n >= 1 && r < |C.nodes|
  {
    exists send <- SentBy(n, C, ev, r) :: IsReplyTo(NodeOf(n, r), send, e, send.trans)
  }

  lemma ReplyMoves(n: nat, C: ClusterState, m: GenericMessage)
    requires 1 <= n <= KEY_SPACE && Settled(n, C) && GroupsOk(n, C) && m in C.net && m.body.AppendReply?
    ensures m.to < n && m.body.groupId < KEY_SPACE && m.to == OwnerOf(n, m.body.groupId)
    ensures !PeerAborts(NodeOf(n, m.to), C.nodes[m.to], m) && m.epoch == Guide(n).epoch
    ensures |Step(n, C, FromPeer(m)).nodes| == n && |Step(n, C, FromPeer(m)).nodes[m.to].smrs| == KEY_SPACE
    ensures Step(n, C, FromPeer(m)).nodes[m.to].smrs[m.body.groupId]
            == ReplyStep(C.nodes[m.to].smrs[m.body.groupId], n, m.body, m.from).state
  {
    InItsGroup(n, C, m);
    var batch := ReplyChanges(n, C, m);
  }

  lemma {:induction false} BatchIsSlice(n: nat, C: ClusterState, m: GenericMessage, batch: seq<Entry>)
    requires 1 <= n <= KEY_SPACE && Settled(n, C) && GroupsOk(n, C) && m in C.net && m.body.AppendReply?
    requires m.to < n && m.body.groupId < KEY_SPACE && m.to == OwnerOf(n, m.body.groupId)
    requires !PeerAborts(NodeOf(n, m.to), C.nodes[m.to], m) && m.epoch == Guide(n).epoch
    requires batch == ReplyStep(C.nodes[m.to].smrs[m.body.groupId], n, m.body, m.from).applied
    ensures var s := C.nodes[m.to].smrs[m.body.groupId];
            var s' := ReplyStep(s, n, m.body, m.from).state;
            s.commits <= s'.commits <= |s.log| && batch == s.log[s.commits..s'.commits]
  {
    var g := m.body.groupId;
    InItsGroup(n, C, m);
    R.ReplyDelivery(GroupConfig(n, g), Project(n, C, g), m);
    R.StepKeeps(GroupConfig(n, g), Project(n, C, g), R.Deliver(m));
  }

  lemma {:induction false} BatchSends(n: nat, C: ClusterState, m: GenericMessage, batch: seq<Entry>, j: nat)
    requires 1 <= n <= KEY_SPACE && Settled(n, C) && GroupsOk(n, C) && m in C.net && m.body.AppendReply?
    requires m.to < n && !PeerAborts(NodeOf(n, m.to), C.nodes[m.to], m) && m.epoch == Guide(n).epoch
    requires batch == ReplyStep(C.nodes[m.to].smrs[m.body.groupId], n, m.body, m.from).applied && j < |batch|
    ensures AnswersEntry(n, C, FromPeer(m), m.to, batch[j])
  {
    var r, g := m.to, m.body.groupId;
    var same := ReplyChanges(n, C, m);
    var replies := BatchWritesOut(NodeOf(n, r), C.nodes[r], m, batch);
    var C' := Step(n, C, FromPeer(m));
    assert C'.nodes[r].sent == C.nodes[r].sent + replies;
    assert SentBy(n, C, FromPeer(m), r) == replies;
    BatchAnswers(NodeOf(n, r), replies, C.nodes[r].pendings, g, batch, j);
    assert replies[j] in SentBy(n, C, FromPeer(m), r);
  }

  lemma MovesOnlyWhenSent(n: nat, C: ClusterState, ev: Event)
    requires n >= 1 && ev.FromPeer? && Step(n, C, ev) != C
    ensures ev.m in C.net
  {
  }

  lemma BatchAnswers(k: Node, replies: seq<ClientSend>, pendings: map<nat, Transport>, g: nat, batch: seq<Entry>,
                     j: nat)
    requires (forall e <- batch :: e.index in pendings) && Answering(k, replies, Answers(pendings, g, batch))
    requires j < |batch|
    ensures j < |replies| && IsReplyTo(k, replies[j], batch[j], replies[j].trans)
  {
    assert Answers(pendings, g, batch)[j].entry == batch[j];
  }

  // Entry i of the group is committed by the reply, and so answered.
  lemma {:induction false} NewlyCommitted(n: nat, C: ClusterState, m: GenericMessage, s: SmrState, i: nat)
    requires 1 <= n <= KEY_SPACE && Settled(n, C) && GroupsOk(n, C) && m in C.net && m.body.AppendReply?
    requires m.to < n && m.body.groupId < KEY_SPACE && m.to == OwnerOf(n, m.body.groupId)
    requires !PeerAborts(NodeOf(n, m.to), C.nodes[m.to], m) && m.epoch == Guide(n).epoch
    requires s == C.nodes[m.to].smrs[m.body.groupId]
    requires s.commits <= i < |s.log| && i < ReplyStep(s, n, m.body, m.from).state.commits
    ensures AnswersEntry(n, C, FromPeer(m), m.to, s.log[i])
  {
    var batch := ReplyStep(s, n, m.body, m.from).applied;
    BatchIsSlice(n, C, m, batch);
    assert batch[i - s.commits] == s.log[i];
    BatchSends(n, C, m, batch, i - s.commits);
  }

  // The event that commits an entry makes its owner answer it.
  lemma {:induction false} CommittingAnswers(n: nat, front: seq<Event>, ev: Event, g: nat, i: nat)
    requires 1 <= n <= KEY_SPACE && AllRouted(n, front) && g < KEY_SPACE
    requires ev.FromPeer? && InGroup(ev.m, g) && ev.m.body.AppendReply?
    requires OwnersPart(n, front, g).commits <= i < OwnersPart(n, front + [ev], g).commits
    requires i < |OwnersPart(n, front, g).log|
    ensures OwnerOf(n, g) < |Run(n, front).nodes|
    ensures AnswersEntry(n, Run(n, front), ev, OwnerOf(n, g), OwnersPart(n, front, g).log[i])
  {
    var C := Run(n, front);
    ClusterRefinesEveryGroup(n, front);
    assert (front + [ev])[..|front|] == front;
    MovesOnlyWhenSent(n, C, ev);
    ReplyMoves(n, C, ev.m);
    NewlyCommitted(n, C, ev.m, OwnersPart(n, front, g), i);
  }

  /** Every committed entry took effect once, at one event t: there its owner committed, applied and answered it, and
      the operation had arrived at an earlier event p, where it got its place in the log. */
  lemma {:induction false} WriteTakesEffectBetween(n: nat, events: seq<Event>, g: nat, i: nat) returns (p: nat, t: nat)
    requires 1 <= n <= KEY_SPACE && AllRouted(n, events) && g < KEY_SPACE && i < OwnersPart(n, events, g).commits
    ensures p < t < |events| && Arrives(n, events, g, i, p) && Commits(n, events, g, i, t)
    ensures OwnerOf(n, g) < |Run(n, events[..t]).nodes| && i < |OwnersPart(n, events, g).log|
    ensures AnswersEntry(n, Run(n, events[..t]), events[t], OwnerOf(n, g), OwnersPart(n, events, g).log[i])
  {
    t := CommittedAt(n, events, g, i);
    var front := events[..t];
    PrefixRouted(n, events, t);
    PrefixRouted(n, events, t + 1);
    assert events[..t + 1] == front + [events[t]];
    PrefixRoutedToo(n, front, events[t]);
    OwnersStep(n, front, events[t], g);
    CommittingAnswers(n, front, events[t], g, i);
    p := ArrivedAt(n, front, g, i);
    assert front[..p] == events[..p];
  }
}
