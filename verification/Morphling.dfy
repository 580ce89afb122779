/** One replica: 256 key groups, an outbox, a key/value store and the clients waiting for an answer
    (Morphling in core/morphling.cpp), and the server callbacks that drive it (app/server.cpp). */
module MorphlingReplica {
  import opened Routing
  import opened Messages
  import opened ReplicatedLog
  import opened EntryVotes
  import opened SmrSteps
  import opened Smr
  import opened MorphlingSteps

  method InitLocalGuidance(clusterSize: nat, keySpace: nat) returns (guide: Guidance)
    requires clusterSize >= 1
    ensures guide == InitialGuidance(clusterSize, keySpace)
  {
    guide := Guidance(1, 0, seq(clusterSize, i => NodeStatus(0)));
    guide := guide.SetClusterSize(LowByte(clusterSize));
    guide := guide.SetAliveNum(LowByte(clusterSize));
    var packed := guide;
    for i := 0 to clusterSize
      invariant |guide.cluster| == clusterSize && guide == packed.(cluster := guide.cluster)
      invariant forall j :: 0 <= j < clusterSize ==>
                  guide.cluster[j] == if j < i then InitialNode(j, keySpace, clusterSize) else NodeStatus(0)
    {
      var start := i * keySpace / clusterSize;
      var end := (i + 1) * keySpace / clusterSize - 1;
      var node := guide.cluster[i].SetPos(LowByte(start), LowByte(end)).SetAlive();
      guide := guide.(cluster := guide.cluster[i := node]);
    }
    assert guide.cluster == InitialGuidance(clusterSize, keySpace).cluster;
  }

  // One SMR for each key group, all reporting to the same sink.
  method NewGroups(id: nat, peers: nat, sink: SMRMessageCallback) returns (groups: seq<SMR>)
    requires id < peers
    ensures |groups| == KEY_SPACE
    ensures forall j :: 0 <= j < KEY_SPACE ==>
              && fresh(groups[j]) && fresh(groups[j].log) && fresh(groups[j].votes)
              && groups[j].Valid() && groups[j].State() == FRESH
              && groups[j].me == id && groups[j].n == peers && groups[j].gid == j && groups[j].cb == sink
    ensures forall j, k :: 0 <= j < k < KEY_SPACE ==>
              groups[j] != groups[k] && groups[j].log != groups[k].log && groups[j].votes != groups[k].votes
  {
    groups := [];
    for i := 0 to KEY_SPACE
      invariant |groups| == i
      invariant forall j :: 0 <= j < i ==>
                  && fresh(groups[j]) && fresh(groups[j].log) && fresh(groups[j].votes)
                  && groups[j].Valid() && groups[j].State() == FRESH
                  && groups[j].me == id && groups[j].n == peers && groups[j].gid == j && groups[j].cb == sink
      invariant forall j, k :: 0 <= j < k < i ==>
                  groups[j] != groups[k] && groups[j].log != groups[k].log && groups[j].votes != groups[k].votes
    {
      var smr := new SMR(id, peers, i, sink);
      groups := groups + [smr];
    }
  }

  class Morphling {
    const me: nat
    const n: nat
    const guide: Guidance
    const smrs: seq<SMR>
    const cb: SMRMessageCallback
    var pendings: map<nat, Transport>
    var storage: Store
    var sent: seq<ClientSend>

    ghost function Self(): Node { Node(me, n, guide) }

    ghost function Repr(): set<object>
    {
      {this, cb} + (set r <- smrs) + (set r <- smrs :: r.log) + (set r <- smrs :: r.votes)
    }

    ghost predicate Valid()
      reads Repr()
    {
      && |smrs| == KEY_SPACE
      && (forall i :: 0 <= i < |smrs| ==>
            smrs[i].Valid() && smrs[i].me == me && smrs[i].n == n && smrs[i].gid == i && smrs[i].cb == cb)
      && (forall i, j :: 0 <= i < j < |smrs| ==>
            smrs[i] != smrs[j] && smrs[i].log != smrs[j].log && smrs[i].votes != smrs[j].votes)
    }

    ghost function State(): MState
      reads Repr()
    {
      MState(seq(|smrs|, i requires 0 <= i < |smrs| reads Repr() => smrs[i].State()),
             cb.nextMsgs, cb.applyEntries, pendings, storage, sent)
    }

    constructor (id: nat, peers: nat)
      requires id < peers
      ensures Valid() && fresh(Repr()) && State() == InitialState()
      ensures Self() == Node(id, peers, InitialGuidance(peers, KEY_SPACE))
    {
      me, n := id, peers;
      var initial := InitLocalGuidance(peers, KEY_SPACE);
      guide := initial;
      pendings, storage, sent := map[], map[], [];
      var sink := new SMRMessageCallback();
      cb := sink;
      var groups := NewGroups(id, peers, sink);
      smrs := groups;
    }

    method PrepareMsgs()
      requires Valid()
      modifies cb`nextMsgs
      ensures Valid() && State() == old(State()).(nextMsgs := Prepared(Self(), old(State()).nextMsgs))
    {
      var msgs := cb.nextMsgs;
      for i := 0 to |msgs|
        invariant |cb.nextMsgs| == |msgs| && Valid()
        invariant State() == old(State()).(nextMsgs := cb.nextMsgs)
        invariant forall j :: 0 <= j < |msgs| ==>
                    cb.nextMsgs[j] == if j < i then PreparedMsg(Self(), msgs[j]) else msgs[j]
      {
        if !msgs[i].body.GuidanceBody? {
          cb.nextMsgs := cb.nextMsgs[i := msgs[i].(from := me, epoch := guide.epoch)];
        }
      }
      assert cb.nextMsgs == Prepared(Self(), msgs);
    }

    method HandleOperation(msg: ClientMessage, trans: Transport)
      requires Valid()
      modifies Repr()
      ensures Valid() && State() == OperationAt(Self(), old(State()), msg, trans)
    {
      if msg.epoch != guide.epoch {
        SendGuidance(trans);
      } else if msg.op.opType == READ {
        ReplyRead(msg.keyHash, trans);
      } else {
        AppendWrite(msg, trans);
      }
    }

    // Guidance to a client.
    method SendGuidance(trans: Transport)
      requires Valid()
      modifies this`sent
      ensures Valid() && State() == old(State()).(sent := old(sent) + [ClientSend(trans, GuidanceReply(Self()))])
    {
      sent := sent + [ClientSend(trans, GuidanceOut(me, 3, guide))];
      assert State().smrs == old(State()).smrs;
    }

    method ReplyRead(keyHash: KeyHash, trans: Transport)
      requires Valid()
      modifies this
      ensures Valid()
      ensures State() == old(State()).(
                storage := Touch(old(storage), keyHash),
                sent := old(sent) + [ClientSend(trans, ReplyData(Self(), keyHash, Fetch(old(storage), keyHash)))])
    {
      if keyHash !in storage {
        storage := storage[keyHash := []];
      }
      sent := sent + [ClientSend(trans, ClientReply(me, true, guide, keyHash, storage[keyHash]))];
      assert State().smrs == old(State()).smrs;
    }

    method AppendWrite(msg: ClientMessage, trans: Transport)
      requires Valid() && msg.epoch == guide.epoch && msg.op.opType != READ
      modifies Repr()
      ensures Valid() && State() == OperationAt(Self(), old(State()), msg, trans)
    {
      var newIdx := ProposeIn(KeyPos(msg.keyHash) as nat, msg);
      pendings := pendings[newIdx := trans];
      assert State().smrs == OperationAt(Self(), old(State()), msg, trans).smrs;
      PrepareMsgs();
    }

    // Hands the operation to the SMR of its group.
    method ProposeIn(g: nat, msg: ClientMessage) returns (newIdx: nat)
      requires Valid() && g < KEY_SPACE
      modifies Repr() - {this}
      ensures Valid()
      ensures var step := OperationStep(old(State()).smrs[g], n, me, g, msg);
              && newIdx == |step.state.log|
              && State() == old(State()).(smrs := old(State()).smrs[g := step.state],
                                          nextMsgs := old(State()).nextMsgs + step.out)
    {
      newIdx := smrs[g].HandleOperation(msg);
      OthersUnchanged(g);
    }

    // After a handler of group g, the state of every other group is what it was.
    twostate lemma OthersUnchanged(g: nat)
      requires old(Valid()) && g < KEY_SPACE
      requires smrs[g].Valid()
      requires forall i :: 0 <= i < |smrs| && i != g ==> unchanged(smrs[i].log) && unchanged(smrs[i].votes)
      ensures Valid() && State().smrs == old(State()).smrs[g := smrs[g].State()]
    {
    }

    method HandleAppendEntries(m: GenericMessage, from: nat)
      requires Valid() && m.body.Append? && from == m.from && !PeerAborts(Self(), State(), m)
      modifies Repr()
      ensures Valid() && State() == AppendAt(Self(), old(State()), m)
    {
      if m.epoch != guide.epoch {
        ReplyWithGuidance(from);
        return;
      }
      var g := m.body.groupId;
      smrs[g].HandleAppendEntries(m.body, from);
      OthersUnchanged(g);
      PrepareMsgs();
    }

    method HandleAppendEntriesReply(m: GenericMessage, from: nat)
      requires Valid() && m.body.AppendReply? && from == m.from && !PeerAborts(Self(), State(), m)
      modifies Repr()
      ensures Valid() && State() == AppendReplyAt(Self(), old(State()), m)
    {
      if m.epoch != guide.epoch {
        ReplyWithGuidance(from);
        return;
      }
      var g := m.body.groupId;
      smrs[g].HandleAppendEntriesReply(m.body, from);
      OthersUnchanged(g);
      PrepareMsgs();
    }

    method ReplyWithGuidance(id: nat)
      requires Valid()
      modifies cb`nextMsgs
      ensures Valid() && State() == old(State()).(nextMsgs := old(State()).nextMsgs + [ReplyGuidance(Self(), id)])
    {
      cb.nextMsgs := cb.nextMsgs + [GenericMessage(id, me, 0, GuidanceBody(3, guide))];
      assert State().smrs == old(State()).smrs;
    }

    method MaybeApplyEntries()
      requires Valid() && AllPending(State(), cb.applyEntries)
      modifies this, cb`applyEntries
      ensures Valid() && State() == MaybeApply(Self(), old(State()))
    {
      var entries := cb.applyEntries;
      for i := 0 to |entries|
        invariant Valid() && State() == ApplyBatch(Self(), old(State()), entries[..i])
      {
        var e := entries[i];
        var op := e.data;
        var data: Bytes := [];
        if op.opType == WRITE {
          storage := storage[op.keyHash := op.data];
        } else {
          if op.keyHash !in storage {
            storage := storage[op.keyHash := []];
          }
          data := storage[op.keyHash];
        }
        sent := sent + [ClientSend(pendings[e.index], ClientReply(me, true, guide, op.keyHash, data))];
        assert entries[..i + 1][..i] == entries[..i];
        assert State().smrs == old(State()).smrs;
      }
      assert entries[..|entries|] == entries;
      cb.applyEntries := [];
    }

    // Hands every waiting message to the connection of its destination.
    method BcastMsgs() returns (wire: seq<GenericMessage>)
      requires Valid()
      modifies cb`nextMsgs
      ensures Valid() && Served(State(), wire) == Broadcasting(old(State()))
    {
      wire := [];
      for i := 0 to |cb.nextMsgs|
        invariant wire == cb.nextMsgs[..i] && cb.nextMsgs == old(cb.nextMsgs)
      {
        wire := wire + [cb.nextMsgs[i]];
      }
      cb.nextMsgs := [];
      assert State().smrs == old(State()).smrs;
    }

    method ServeClient(input: ClientInput, trans: Transport) returns (wire: seq<GenericMessage>)
      requires Valid()
      modifies Repr()
      ensures Valid() && Served(State(), wire) == OnClientInput(Self(), old(State()), input, trans)
    {
      match input
      case Operate(msg) =>
        HandleOperation(msg, trans);
        wire := BcastMsgs();
      case AskGuidance =>
        SendGuidance(trans);
        wire := [];
      case NotFromClient =>
        wire := [];
    }

    method ServePeer(input: PeerInput) returns (wire: seq<GenericMessage>)
      requires Valid() && (input.PeerMessage? ==> !PeerCrashes(Self(), State(), input.m))
      modifies Repr()
      ensures Valid() && Served(State(), wire) == OnPeerInput(Self(), old(State()), input)
    {
      if input.NotFromPeer? {
        return [];
      }
      var m := input.m;
      if m.body.Append? {
        HandleAppendEntries(m, m.from);
      } else if m.body.AppendReply? {
        HandleAppendEntriesReply(m, m.from);
        MaybeApplyEntries();
      }
      wire := BcastMsgs();
    }
  }
}
