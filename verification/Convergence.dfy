/** The same key group over one lossless first-in-first-out channel per pair of replicas, as TCP gives. */
module Convergence {
  import Sets
  import opened Messages
  import opened ReplicatedLog
  import opened EntryVotes
  import opened SmrSteps
  import opened Replication

  type Channels = map<(nat, nat), seq<GenericMessage>>

  // `sys` is the system of Replication; its net holds everything ever sent.
  datatype Fifo = Fifo(sys: System, chans: Channels) {
    function Chan(from: nat, to: nat): seq<GenericMessage> { Queue(chans, from, to) }
  }

  function Queue(chans: Channels, from: nat, to: nat): seq<GenericMessage>
  {
    if (from, to) in chans then chans[(from, to)] else []
  }

  datatype FifoEvent =
    | Request(msg: ClientMessage)
    | Receipt(from: nat, to: nat)     // the message at the head of that channel

  function Enqueue(chans: Channels, msgs: seq<GenericMessage>): Channels
  {
    if msgs == [] then chans
    else
      var m := msgs[|msgs| - 1];
      var front := Enqueue(chans, msgs[..|msgs| - 1]);
      front[(m.from, m.to) := Queue(front, m.from, m.to) + [m]]
  }

  function StampAll(out: seq<GenericMessage>, from: nat, epoch: nat): seq<GenericMessage>
  {
    seq(|out|, i requires 0 <= i < |out| => Stamp(out[i], from, epoch))
  }

  // The messages the event makes its replica send, in order.
  function Sends(c: Config, s: System, ev: Event): seq<GenericMessage>
  {
    match ev
    case Propose(msg) =>
      if c.owner >= |s.reps| then []
      else StampAll(OperationStep(s.reps[c.owner], c.n, c.owner, c.gid, msg).out, c.owner, c.epoch)
    case Deliver(m) =>
      if m !in s.net || m.body.GuidanceBody? || Aborts(c, s, m) then []
      else if m.body.Append? then StampAll(AppendStep(s.reps[m.to], c.gid, m.body, m.from).out, m.to, c.epoch)
      else StampAll(ReplyStep(s.reps[m.to], c.n, m.body, m.from).out, m.to, c.epoch)
  }

  function FifoStep(c: Config, f: Fifo, ev: FifoEvent): Fifo
  {
    match ev
    case Request(msg) =>
      Fifo(Step(c, f.sys, Propose(msg)), Enqueue(f.chans, Sends(c, f.sys, Propose(msg))))
    case Receipt(from, to) =>
      var queue := f.Chan(from, to);
      if queue == [] then f
      else Fifo(Step(c, f.sys, Deliver(queue[0])),
                Enqueue(f.chans[(from, to) := queue[1..]], Sends(c, f.sys, Deliver(queue[0]))))
  }

  function FifoRun(c: Config, events: seq<FifoEvent>): Fifo
  {
    if events == [] then Fifo(Initial(c), map[])
    else FifoStep(c, FifoRun(c, events[..|events| - 1]), events[|events| - 1])
  }

  /** A run over channels is a run over the unreliable network, so everything proved there holds here. */
  lemma {:induction false} FifoRefinesReplication(c: Config, events: seq<FifoEvent>) returns (lossy: seq<Event>)
    ensures FifoRun(c, events).sys == Run(c, lossy)
  {
    if events == [] {
      lossy := [];
    } else {
      var front := FifoRefinesReplication(c, events[..|events| - 1]);
      var f := FifoRun(c, events[..|events| - 1]);
      match events[|events| - 1]
      case Request(msg) => lossy := front + [Propose(msg)];
      case Receipt(from, to) =>
        lossy := if f.Chan(from, to) == [] then front else front + [Deliver(f.Chan(from, to)[0])];
      assert lossy != front ==> lossy[..|lossy| - 1] == front;
    }
  }

  // ---- What one event puts on one channel ----

  function Between(msgs: seq<GenericMessage>, from: nat, to: nat): seq<GenericMessage>
  {
    if msgs == [] then []
    else
      var m := msgs[|msgs| - 1];
      Between(msgs[..|msgs| - 1], from, to) + if m.from == from && m.to == to then [m] else []
  }

  lemma {:induction false} EnqueueOnChannel(chans: Channels, msgs: seq<GenericMessage>, from: nat, to: nat)
    ensures Queue(Enqueue(chans, msgs), from, to) == Queue(chans, from, to) + Between(msgs, from, to)
  {
    if msgs == [] {
    } else {
      EnqueueOnChannel(chans, msgs[..|msgs| - 1], from, to);
    }
  }

  lemma BetweenAfter(msgs: seq<GenericMessage>, m: GenericMessage, from: nat, to: nat)
    ensures Between(msgs + [m], from, to) == Between(msgs, from, to) + if m.from == from && m.to == to then [m] else []
  {
    assert (msgs + [m])[..|msgs|] == msgs;
  }

  lemma StampAllAfter(out: seq<GenericMessage>, m: GenericMessage, from: nat, epoch: nat)
    ensures StampAll(out + [m], from, epoch) == StampAll(out, from, epoch) + [Stamp(m, from, epoch)]
  {
  }

  lemma {:induction false} BroadcastOnChannel(n: nat, me: nat, body: Body, epoch: nat, from: nat, to: nat)
    ensures Between(StampAll(Broadcast(n, me, body), me, epoch), from, to)
            == if from == me && to < n && to != me then [Stamp(Unstamped(to, body), me, epoch)] else []
  {
    if n == 0 {
    } else {
      BroadcastOnChannel(n - 1, me, body, epoch, from, to);
      OneMorePeer(n, me, body, epoch, from, to);
    }
  }

  lemma OneMorePeer(n: nat, me: nat, body: Body, epoch: nat, from: nat, to: nat)
    requires n > 0
    ensures Between(StampAll(Broadcast(n, me, body), me, epoch), from, to)
            == Between(StampAll(Broadcast(n - 1, me, body), me, epoch), from, to)
               + if n - 1 != me && from == me && to == n - 1 then [Stamp(Unstamped(to, body), me, epoch)] else []
  {
    var front := Broadcast(n - 1, me, body);
    if n - 1 == me {
      assert Broadcast(n, me, body) == front;
    } else {
      StampAllAfter(front, Unstamped(n - 1, body), me, epoch);
      BetweenAfter(StampAll(front, me, epoch), Stamp(Unstamped(n - 1, body), me, epoch), from, to);
    }
  }

  lemma OneOnChannel(m: GenericMessage, from: nat, to: nat)
    ensures Between([m], from, to) == if m.from == from && m.to == to then [m] else []
  {
    assert [m][..0] == [];
  }

  // ---- The invariant ----

  // How far replica r's replies have reached the owner.
  function Acked(c: Config, f: Fifo, r: nat): int
    requires r < |f.sys.reps|
  {
    |f.sys.reps[r].log| - |f.Chan(r, c.owner)|
  }

  ghost predicate ChannelsOk(c: Config, f: Fifo, r: nat)
    requires r < |f.sys.reps| && c.owner < |f.sys.reps|
  {
    var down, up := f.Chan(c.owner, r), f.Chan(r, c.owner);
    && |down| == |f.sys.reps[c.owner].log| - |f.sys.reps[r].log|
    && (forall k :: 0 <= k < |down| ==>
          && down[k] in f.sys.net && down[k].to == r
          && down[k].body.Append? && down[k].body.prevIndex == |f.sys.reps[r].log| + k)
    && 0 <= Acked(c, f, r)
    && (forall k :: 0 <= k < |up| ==>
          && up[k] in f.sys.net && up[k].from == r
          && up[k].body.AppendReply? && up[k].body.success && up[k].body.index == Acked(c, f, r) + 1 + k)
  }

  // Replicas whose vote for the index the owner has seen.
  function Seen(c: Config, f: Fifo, index: nat): set<nat>
  {
    set r | r in Sets.Below(|f.sys.reps|) && (r == c.owner || index <= Acked(c, f, r))
  }

  ghost predicate Counted(c: Config, f: Fifo, index: nat)
    requires c.owner < |f.sys.reps|
  {
    var s := f.sys.reps[c.owner];
    if index > |s.log| then index !in s.votes.complete && s.votes.VotersOf(index) == {}
    else if index == 0 then true
    else if index in s.votes.complete then |Seen(c, f, index)| >= Quorum(c.n)
    else |Seen(c, f, index)| < Quorum(c.n) && s.votes.VotersOf(index) == Seen(c, f, index)
  }

  ghost predicate CommitFollowsVotes(c: Config, s: SmrState)
  {
    && (c.n >= 2 ==> forall index <- s.votes.complete :: index <= s.commits)
    && (c.n == 1 ==> s.commits == 0)
  }

  ghost predicate VotesSeen(c: Config, f: Fifo)
    requires c.owner < |f.sys.reps|
  {
    && (forall index: nat :: Counted(c, f, index))
    && CommitFollowsVotes(c, f.sys.reps[c.owner])
  }

  // Messages travel only between the owner and its followers.
  ghost predicate OnlyOwnerChannels(c: Config, chans: Channels)
  {
    forall a: nat, b: nat :: Queue(chans, a, b) != [] ==> (a == c.owner) != (b == c.owner) && a < c.n && b < c.n
  }

  ghost predicate FifoInv(c: Config, f: Fifo)
  {
    && Inv(c, f.sys)
    && OnlyOwnerChannels(c, f.chans)
    && (forall r :: 0 <= r < c.n && r != c.owner ==> ChannelsOk(c, f, r))
    && VotesSeen(c, f)
  }

  // What is new on each channel after a request: one append message to each follower.
  function Announcement(c: Config, f: Fifo, msg: ClientMessage, r: nat): GenericMessage
    requires c.owner < |f.sys.reps|
  {
    var s := f.sys.reps[c.owner];
    Stamp(Unstamped(r, AnnounceLast(Appended(s.log, msg.epoch, msg.op), s.commits, c.gid)), c.owner, c.epoch)
  }

  lemma RequestOnChannel(c: Config, f: Fifo, msg: ClientMessage, a: nat, b: nat)
    requires c.owner < |f.sys.reps|
    ensures FifoStep(c, f, Request(msg)).Chan(a, b) == f.Chan(a, b)
            + if a == c.owner && b < c.n && b != c.owner then [Announcement(c, f, msg, b)] else []
  {
    var s := f.sys.reps[c.owner];
    EnqueueOnChannel(f.chans, Sends(c, f.sys, Propose(msg)), a, b);
    BroadcastOnChannel(c.n, c.owner, AnnounceLast(Appended(s.log, msg.epoch, msg.op), s.commits, c.gid), c.epoch, a, b);
  }

  // The owner's log is one longer and the announcement of it is last on the channel to r.
  lemma DownExtends(c: Config, f: Fifo, f': Fifo, r: nat, m: GenericMessage)
    requires c.owner < |f.sys.reps| == |f'.sys.reps| && r < |f.sys.reps| && r != c.owner && ChannelsOk(c, f, r)
    requires f'.Chan(c.owner, r) == f.Chan(c.owner, r) + [m] && f'.Chan(r, c.owner) == f.Chan(r, c.owner)
    requires f'.sys.reps[r] == f.sys.reps[r]
    requires |f'.sys.reps[c.owner].log| == |f.sys.reps[c.owner].log| + 1
    requires f.sys.net <= f'.sys.net && m in f'.sys.net && m.to == r
    requires m.body.Append? && m.body.prevIndex == |f.sys.reps[c.owner].log|
    ensures ChannelsOk(c, f', r) && Acked(c, f', r) == Acked(c, f, r)
  {
  }

  lemma RequestChannels(c: Config, f: Fifo, msg: ClientMessage, r: nat)
    requires FifoInv(c, f) && r < c.n && r != c.owner
    ensures ChannelsOk(c, FifoStep(c, f, Request(msg)), r)
    ensures Acked(c, FifoStep(c, f, Request(msg)), r) == Acked(c, f, r)
  {
    var f' := FifoStep(c, f, Request(msg));
    var s := f.sys.reps[c.owner];
    RequestOnChannel(c, f, msg, c.owner, r);
    RequestOnChannel(c, f, msg, r, c.owner);
    BroadcastReaches(c.n, c.owner, AnnounceLast(Appended(s.log, msg.epoch, msg.op), s.commits, c.gid), c.epoch, r);
    RequestEffect(c, f.sys, msg, r);
    assert ChannelsOk(c, f, r);
    DownExtends(c, f, f', r, Announcement(c, f, msg, r));
  }

  lemma RequestEffect(c: Config, s: System, msg: ClientMessage, r: nat)
    requires Inv(c, s) && r < c.n && r != c.owner
    ensures var s' := Step(c, s, Propose(msg));
            var log := s.reps[c.owner].log;
            && |s'.reps| == c.n && s'.reps[r] == s.reps[r]
            && s'.reps[c.owner].log == Appended(log, msg.epoch, msg.op)
            && s'.net == s.net + Stamped(Broadcast(c.n, c.owner,
                 AnnounceLast(Appended(log, msg.epoch, msg.op), s.reps[c.owner].commits, c.gid)), c.owner, c.epoch)
  {
  }

  lemma RequestKeeps(c: Config, f: Fifo, msg: ClientMessage)
    requires FifoInv(c, f)
    ensures FifoInv(c, FifoStep(c, f, Request(msg)))
  {
    var f' := FifoStep(c, f, Request(msg));
    StepKeeps(c, f.sys, Propose(msg));
    forall a: nat, b: nat | Queue(f'.chans, a, b) != []
      ensures (a == c.owner) != (b == c.owner) && a < c.n && b < c.n
    {
      RequestOnChannel(c, f, msg, a, b);
    }
    forall r | 0 <= r < c.n && r != c.owner
      ensures ChannelsOk(c, f', r) && Acked(c, f', r) == Acked(c, f, r)
    {
      RequestChannels(c, f, msg, r);
    }
    RequestVotes(c, f, f', msg);
  }

  // The owner's own vote for its next entry.
  lemma SelfVoteCounted(c: Config, f: Fifo, f': Fifo, index: nat)
    requires c.owner < |f.sys.reps| == |f'.sys.reps| == c.n
    requires |f'.sys.reps[c.owner].log| == |f.sys.reps[c.owner].log| + 1
    requires f'.sys.reps[c.owner].votes
             == CastVote(f.sys.reps[c.owner].votes, c.n, c.owner, |f.sys.reps[c.owner].log| + 1).state
    requires forall r :: 0 <= r < c.n && r != c.owner ==>
               Acked(c, f', r) == Acked(c, f, r) <= |f.sys.reps[c.owner].log|
    requires Counted(c, f, index)
    ensures Counted(c, f', index)
  {
    var last := |f.sys.reps[c.owner].log| + 1;
    CastVoteEffect(f.sys.reps[c.owner].votes, c.n, c.owner, last);
    if index == last {
      assert Seen(c, f', index) == {c.owner};
    } else {
      assert Seen(c, f', index) == Seen(c, f, index);
    }
  }

  lemma RequestVotes(c: Config, f: Fifo, f': Fifo, msg: ClientMessage)
    requires FifoInv(c, f) && f'.sys == Step(c, f.sys, Propose(msg))
    requires forall r :: 0 <= r < c.n && r != c.owner ==> Acked(c, f', r) == Acked(c, f, r)
    ensures VotesSeen(c, f')
  {
    RequestAtOwner(c, f.sys, msg);
    forall r | 0 <= r < c.n && r != c.owner
      ensures Acked(c, f, r) <= |f.sys.reps[c.owner].log|
    {
      assert ChannelsOk(c, f, r);
    }
    forall index: nat
      ensures Counted(c, f', index)
    {
      assert Counted(c, f, index);
      SelfVoteCounted(c, f, f', index);
    }
    SelfVoteCompletesNothing(c, f, f'.sys);
  }

  // With two replicas or more the owner's vote is never the last one needed.
  lemma SelfVoteCompletesNothing(c: Config, f: Fifo, s': System)
    requires FifoInv(c, f) && |s'.reps| == c.n && s'.reps[c.owner].commits == f.sys.reps[c.owner].commits
    requires s'.reps[c.owner].votes
             == CastVote(f.sys.reps[c.owner].votes, c.n, c.owner, |f.sys.reps[c.owner].log| + 1).state
    ensures CommitFollowsVotes(c, s'.reps[c.owner])
  {
    var s := f.sys.reps[c.owner];
    assert Counted(c, f, |s.log| + 1);
    CastVoteEffect(s.votes, c.n, c.owner, |s.log| + 1);
  }

  lemma {:induction false} BroadcastReaches(n: nat, me: nat, body: Body, epoch: nat, r: nat)
    requires r < n && r != me
    ensures Stamp(Unstamped(r, body), me, epoch) in Stamped(Broadcast(n, me, body), me, epoch)
  {
    var out := Broadcast(n, me, body);
    if r == n - 1 {
      assert out[|out| - 1] == Unstamped(r, body);
    } else {
      BroadcastReaches(n - 1, me, body, epoch, r);
      var i :| 0 <= i < |Broadcast(n - 1, me, body)|
               && Stamp(Broadcast(n - 1, me, body)[i], me, epoch) == Stamp(Unstamped(r, body), me, epoch);
      assert out[i] == Broadcast(n - 1, me, body)[i];
    }
  }

  // The follower takes in the next entry and acknowledges it.
  lemma DownDelivery(c: Config, f: Fifo, r: nat) returns (reply: GenericMessage)
    requires FifoInv(c, f) && r < c.n && r != c.owner && f.Chan(c.owner, r) != []
    ensures var m := f.Chan(c.owner, r)[0];
            var s' := Step(c, f.sys, Deliver(m));
            && Sends(c, f.sys, Deliver(m)) == [reply]
            && f.sys.net <= s'.net && reply in s'.net
            && |s'.reps| == c.n
            && (forall q :: 0 <= q < c.n && q != r ==> s'.reps[q] == f.sys.reps[q])
            && |s'.reps[r].log| == |f.sys.reps[r].log| + 1
            && reply.from == r && reply.to == c.owner
            && reply.body == AppendReply(true, c.gid, |f.sys.reps[r].log| + 1)
  {
    assert ChannelsOk(c, f, r);
    var m := f.Chan(c.owner, r)[0];
    AppendDelivery(c, f.sys, m);
    var step := AppendStep(f.sys.reps[r], c.gid, m.body, m.from);
    reply := Stamp(step.out[0], r, c.epoch);
    assert reply in Stamped(step.out, r, c.epoch);
  }

  lemma DownChannels(c: Config, f: Fifo, r: nat, reply: GenericMessage, a: nat, b: nat)
    requires r != c.owner && f.Chan(c.owner, r) != [] && reply.from == r && reply.to == c.owner
    requires Sends(c, f.sys, Deliver(f.Chan(c.owner, r)[0])) == [reply]
    ensures FifoStep(c, f, Receipt(c.owner, r)).Chan(a, b)
            == if (a, b) == (c.owner, r) then f.Chan(a, b)[1..]
               else if (a, b) == (r, c.owner) then f.Chan(a, b) + [reply]
               else f.Chan(a, b)
  {
    EnqueueOnChannel(f.chans[(c.owner, r) := f.Chan(c.owner, r)[1..]], [reply], a, b);
    OneOnChannel(reply, a, b);
  }

  lemma ChannelsFrame(c: Config, f: Fifo, f': Fifo, q: nat)
    requires c.owner < |f.sys.reps| == |f'.sys.reps| && q < |f.sys.reps| && ChannelsOk(c, f, q)
    requires f'.Chan(c.owner, q) == f.Chan(c.owner, q) && f'.Chan(q, c.owner) == f.Chan(q, c.owner)
    requires f'.sys.reps[q].log == f.sys.reps[q].log && |f'.sys.reps[c.owner].log| == |f.sys.reps[c.owner].log|
    requires f.sys.net <= f'.sys.net
    ensures ChannelsOk(c, f', q) && Acked(c, f', q) == Acked(c, f, q)
  {
  }

  lemma DownAdvances(c: Config, f: Fifo, f': Fifo, r: nat, reply: GenericMessage)
    requires c.owner < |f.sys.reps| == |f'.sys.reps| && r < |f.sys.reps| && r != c.owner && ChannelsOk(c, f, r)
    requires f.Chan(c.owner, r) != [] && f'.Chan(c.owner, r) == f.Chan(c.owner, r)[1..]
    requires f'.Chan(r, c.owner) == f.Chan(r, c.owner) + [reply]
    requires |f'.sys.reps[r].log| == |f.sys.reps[r].log| + 1
    requires |f'.sys.reps[c.owner].log| == |f.sys.reps[c.owner].log|
    requires f.sys.net <= f'.sys.net && reply in f'.sys.net && reply.from == r
    requires reply.body == AppendReply(true, c.gid, |f.sys.reps[r].log| + 1)
    ensures ChannelsOk(c, f', r) && Acked(c, f', r) == Acked(c, f, r)
  {
  }

  lemma DownFollower(c: Config, f: Fifo, r: nat, q: nat)
    requires FifoInv(c, f) && r < c.n && r != c.owner && f.Chan(c.owner, r) != [] && q < c.n && q != c.owner
    ensures var f' := FifoStep(c, f, Receipt(c.owner, r));
            |f'.sys.reps| == c.n && ChannelsOk(c, f', q) && Acked(c, f', q) == Acked(c, f, q)
  {
    var f' := FifoStep(c, f, Receipt(c.owner, r));
    var reply := DownDelivery(c, f, r);
    DownChannels(c, f, r, reply, c.owner, q);
    DownChannels(c, f, r, reply, q, c.owner);
    assert ChannelsOk(c, f, q);
    if q == r {
      DownAdvances(c, f, f', r, reply);
    } else {
      ChannelsFrame(c, f, f', q);
    }
  }

  lemma DownKeeps(c: Config, f: Fifo, r: nat)
    requires FifoInv(c, f) && r < c.n && r != c.owner && f.Chan(c.owner, r) != []
    ensures FifoInv(c, FifoStep(c, f, Receipt(c.owner, r)))
  {
    var f' := FifoStep(c, f, Receipt(c.owner, r));
    var reply := DownDelivery(c, f, r);
    StepKeeps(c, f.sys, Deliver(f.Chan(c.owner, r)[0]));
    forall a: nat, b: nat | Queue(f'.chans, a, b) != []
      ensures (a == c.owner) != (b == c.owner) && a < c.n && b < c.n
    {
      DownChannels(c, f, r, reply, a, b);
    }
    forall q | 0 <= q < c.n && q != c.owner
      ensures ChannelsOk(c, f', q) && Acked(c, f', q) == Acked(c, f, q)
    {
      DownFollower(c, f, r, q);
    }
    assert f'.sys.reps[c.owner] == f.sys.reps[c.owner];
    forall index: nat
      ensures Counted(c, f', index)
    {
      assert Counted(c, f, index) && Seen(c, f', index) == Seen(c, f, index);
    }
  }

  lemma UpDelivery(c: Config, f: Fifo, r: nat)
    requires FifoInv(c, f) && r < c.n && r != c.owner && f.Chan(r, c.owner) != []
    ensures var f' := FifoStep(c, f, Receipt(r, c.owner));
            && f'.chans == f.chans[(r, c.owner) := f.Chan(r, c.owner)[1..]]
            && |f'.sys.reps| == c.n && f.sys.net <= f'.sys.net
            && (forall q :: 0 <= q < c.n ==> f'.sys.reps[q].log == f.sys.reps[q].log)
  {
    assert ChannelsOk(c, f, r);
    ReplyDelivery(c, f.sys, f.Chan(r, c.owner)[0]);
  }

  lemma UpAdvances(c: Config, f: Fifo, f': Fifo, r: nat)
    requires c.owner < |f.sys.reps| == |f'.sys.reps| && r < |f.sys.reps| && r != c.owner && ChannelsOk(c, f, r)
    requires f.Chan(r, c.owner) != [] && f'.Chan(r, c.owner) == f.Chan(r, c.owner)[1..]
    requires f'.Chan(c.owner, r) == f.Chan(c.owner, r) && f.sys.net <= f'.sys.net
    requires forall q :: 0 <= q < |f.sys.reps| ==> f'.sys.reps[q].log == f.sys.reps[q].log
    ensures ChannelsOk(c, f', r) && Acked(c, f', r) == Acked(c, f, r) + 1
  {
  }

  // The owner counts the next acknowledgement.
  lemma UpFollower(c: Config, f: Fifo, r: nat, q: nat)
    requires FifoInv(c, f) && r < c.n && r != c.owner && f.Chan(r, c.owner) != [] && q < c.n && q != c.owner
    ensures var f' := FifoStep(c, f, Receipt(r, c.owner));
            && |f'.sys.reps| == c.n && ChannelsOk(c, f', q)
            && Acked(c, f', q) == Acked(c, f, q) + if q == r then 1 else 0
    ensures FifoStep(c, f, Receipt(r, c.owner)).chans == f.chans[(r, c.owner) := f.Chan(r, c.owner)[1..]]
  {
    var f' := FifoStep(c, f, Receipt(r, c.owner));
    assert ChannelsOk(c, f, r) && ChannelsOk(c, f, q);
    UpDelivery(c, f, r);
    if q == r {
      UpAdvances(c, f, f', r);
    } else {
      ChannelsFrame(c, f, f', q);
    }
  }

  lemma PopKeepsChannels(c: Config, chans: Channels, r: nat)
    requires OnlyOwnerChannels(c, chans) && Queue(chans, r, c.owner) != []
    ensures OnlyOwnerChannels(c, chans[(r, c.owner) := Queue(chans, r, c.owner)[1..]])
  {
    var chans' := chans[(r, c.owner) := Queue(chans, r, c.owner)[1..]];
    forall a: nat, b: nat | Queue(chans', a, b) != []
      ensures (a == c.owner) != (b == c.owner) && a < c.n && b < c.n
    {
      assert Queue(chans, a, b) != [];
    }
  }

  lemma UpKeeps(c: Config, f: Fifo, r: nat)
    requires FifoInv(c, f) && r < c.n && r != c.owner && f.Chan(r, c.owner) != []
    ensures FifoInv(c, FifoStep(c, f, Receipt(r, c.owner)))
  {
    var f' := FifoStep(c, f, Receipt(r, c.owner));
    var m := f.Chan(r, c.owner)[0];
    assert ChannelsOk(c, f, r);
    StepKeeps(c, f.sys, Deliver(m));
    UpFollower(c, f, r, r);
    forall q | 0 <= q < c.n && q != c.owner
      ensures ChannelsOk(c, f', q) && Acked(c, f', q) == Acked(c, f, q) + if q == r then 1 else 0
    {
      UpFollower(c, f, r, q);
    }
    UpVotes(c, f, f', m);
    PopKeepsChannels(c, f.chans, r);
  }

  lemma UpVotes(c: Config, f: Fifo, f': Fifo, m: GenericMessage)
    requires FifoInv(c, f) && m in f.sys.net && m.from < c.n
    requires m.body.AppendReply? && m.body.success && m.body.index == Acked(c, f, m.from) + 1
    requires f'.sys == Step(c, f.sys, Deliver(m)) && |f'.sys.reps| == c.n
    requires forall q :: 0 <= q < c.n && q != c.owner ==>
          Acked(c, f', q) == Acked(c, f, q) + if q == m.from then 1 else 0
    ensures VotesSeen(c, f')
  {
    UpVoteCounted(c, f, f'.sys, m);
    AllCountedAfter(c, f, f', m.from);
  }

  lemma AllCountedAfter(c: Config, f: Fifo, f': Fifo, r: nat)
    requires c.owner < |f.sys.reps| == |f'.sys.reps| && r < |f.sys.reps| && r != c.owner && VotesSeen(c, f)
    requires 0 <= Acked(c, f, r) < |f.sys.reps[c.owner].log|
    requires forall q :: 0 <= q < |f.sys.reps| && q != c.owner ==>
               Acked(c, f', q) == Acked(c, f, q) + if q == r then 1 else 0
    requires f'.sys.reps[c.owner].log == f.sys.reps[c.owner].log
    requires f'.sys.reps[c.owner].votes == CastVote(f.sys.reps[c.owner].votes, c.n, r, Acked(c, f, r) + 1).state
    requires CommitFollowsVotes(c, f'.sys.reps[c.owner])
    ensures VotesSeen(c, f')
  {
    forall index: nat
      ensures Counted(c, f', index)
    {
      assert Counted(c, f, index);
      CountedAfter(c, f, f', r, index);
    }
  }

  lemma UpVoteCounted(c: Config, f: Fifo, sys': System, m: GenericMessage)
    requires FifoInv(c, f) && m in f.sys.net && m.from < c.n
    requires m.body.AppendReply? && m.body.success && m.body.index == Acked(c, f, m.from) + 1
    requires sys' == Step(c, f.sys, Deliver(m)) && |sys'.reps| == c.n
    ensures m.from != c.owner && 0 <= Acked(c, f, m.from) < |f.sys.reps[c.owner].log|
    ensures sys'.reps[c.owner].votes == CastVote(f.sys.reps[c.owner].votes, c.n, m.from, m.body.index).state
    ensures sys'.reps[c.owner].log == f.sys.reps[c.owner].log
    ensures CommitFollowsVotes(c, sys'.reps[c.owner])
  {
    assert MessageOk(c, f.sys, m) && ChannelsOk(c, f, m.from);
    ReplyDelivery(c, f.sys, m);
    CastVoteEffect(f.sys.reps[c.owner].votes, c.n, m.from, m.body.index);
  }

  // The vote of replica r for the entry after those it had acknowledged.
  lemma CountedAfter(c: Config, f: Fifo, f': Fifo, r: nat, index: nat)
    requires c.owner < |f.sys.reps| == |f'.sys.reps| && r < |f.sys.reps| && r != c.owner
    requires 0 <= Acked(c, f, r) < |f.sys.reps[c.owner].log|
    requires forall q :: 0 <= q < |f.sys.reps| && q != c.owner ==>
          Acked(c, f', q) == Acked(c, f, q) + if q == r then 1 else 0
    requires f'.sys.reps[c.owner].log == f.sys.reps[c.owner].log
    requires f'.sys.reps[c.owner].votes == CastVote(f.sys.reps[c.owner].votes, c.n, r, Acked(c, f, r) + 1).state
    requires Counted(c, f, index)
    ensures Counted(c, f', index)
  {
    CastVoteEffect(f.sys.reps[c.owner].votes, c.n, r, Acked(c, f, r) + 1);
    SeenAfter(c, f, f', r, index);
  }

  lemma SeenAfter(c: Config, f: Fifo, f': Fifo, r: nat, index: nat)
    requires c.owner < |f.sys.reps| == |f'.sys.reps| && r < |f.sys.reps| && r != c.owner && 0 <= Acked(c, f, r)
    requires forall q :: 0 <= q < |f.sys.reps| && q != c.owner ==>
          Acked(c, f', q) == Acked(c, f, q) + if q == r then 1 else 0
    ensures Seen(c, f', index) == Seen(c, f, index) + if index == Acked(c, f, r) + 1 then {r} else {}
    ensures index == Acked(c, f, r) + 1 ==> r !in Seen(c, f, index)
  {
  }

  lemma FifoInitialInv(c: Config)
    requires c.Valid()
    ensures FifoInv(c, FifoRun(c, []))
  {
    InitialInv(c);
  }

  lemma FifoStepKeeps(c: Config, f: Fifo, ev: FifoEvent)
    requires FifoInv(c, f)
    ensures FifoInv(c, FifoStep(c, f, ev))
  {
    match ev
    case Request(msg) => RequestKeeps(c, f, msg);
    case Receipt(from, to) =>
      if f.Chan(from, to) != [] {
        if from == c.owner { DownKeeps(c, f, to); } else { UpKeeps(c, f, from); }
      }
  }

  lemma {:induction false} FifoRunInv(c: Config, events: seq<FifoEvent>)
    requires c.Valid()
    ensures FifoInv(c, FifoRun(c, events))
  {
    if events == [] {
      FifoInitialInv(c);
    } else {
      FifoRunInv(c, events[..|events| - 1]);
      FifoStepKeeps(c, FifoRun(c, events[..|events| - 1]), events[|events| - 1]);
    }
  }

  // ---- Convergence ----

  ghost predicate Quiescent(f: Fifo)
  {
    forall a: nat, b: nat :: f.Chan(a, b) == []
  }

  ghost predicate Converged(c: Config, f: Fifo)
    requires c.owner < |f.sys.reps|
  {
    && (forall r :: 0 <= r < |f.sys.reps| ==> f.sys.reps[r].log == f.sys.reps[c.owner].log)
    && f.sys.reps[c.owner].commits == |f.sys.reps[c.owner].log|
  }

  lemma QuietFollower(c: Config, f: Fifo, r: nat)
    requires FifoInv(c, f) && Quiescent(f) && r < c.n && r != c.owner
    ensures f.sys.reps[r].log == f.sys.reps[c.owner].log && Acked(c, f, r) == |f.sys.reps[c.owner].log|
  {
    assert ChannelsOk(c, f, r);
    assert f.Chan(c.owner, r) == [] && f.Chan(r, c.owner) == [];
  }

  // Every replica's vote for the last entry has been seen, so it is complete.
  lemma LastEntryComplete(c: Config, f: Fifo)
    requires FifoInv(c, f) && f.sys.reps[c.owner].log != []
    requires forall r :: 0 <= r < c.n && r != c.owner ==> Acked(c, f, r) == |f.sys.reps[c.owner].log|
    ensures |f.sys.reps[c.owner].log| in f.sys.reps[c.owner].votes.complete
  {
    var last := |f.sys.reps[c.owner].log|;
    assert Counted(c, f, last);
    assert Seen(c, f, last) == Sets.Below(c.n);
  }

  /** Convergence: once no message is in flight all logs equal the owner's, and the owner has committed
      everything, if and only if there are at least two replicas or nothing was ever proposed.  (A lone
      replica completes each entry with its own vote, on which the source does not act.) */
  lemma QuiescentMeansConverged(c: Config, events: seq<FifoEvent>)
    requires c.Valid() && Quiescent(FifoRun(c, events))
    ensures c.owner < |FifoRun(c, events).sys.reps|
    ensures Converged(c, FifoRun(c, events)) <==> c.n >= 2 || FifoRun(c, events).sys.reps[c.owner].log == []
  {
    FifoRunInv(c, events);
    QuietStateConverged(c, FifoRun(c, events));
  }

  lemma QuietStateConverged(c: Config, f: Fifo)
    requires FifoInv(c, f) && Quiescent(f)
    ensures Converged(c, f) <==> c.n >= 2 || f.sys.reps[c.owner].log == []
  {
    forall r | 0 <= r < c.n && r != c.owner
      ensures f.sys.reps[r].log == f.sys.reps[c.owner].log && Acked(c, f, r) == |f.sys.reps[c.owner].log|
    {
      QuietFollower(c, f, r);
    }
    if f.sys.reps[c.owner].log != [] {
      LastEntryComplete(c, f);
    }
  }

  // ---- Deliveries come to an end ----

  // An append message in flight is worth two deliveries: its own and its reply's.
  function Load(c: Config, f: Fifo, k: nat): nat
  {
    if k == 0 then 0
    else Load(c, f, k - 1)
         + if k - 1 == c.owner then 0 else 2 * |f.Chan(c.owner, k - 1)| + |f.Chan(k - 1, c.owner)|
  }

  lemma {:induction false} LoadDrops(c: Config, f: Fifo, f': Fifo, k: nat, r: nat)
    requires r != c.owner
    requires 2 * |f'.Chan(c.owner, r)| + |f'.Chan(r, c.owner)| + 1 == 2 * |f.Chan(c.owner, r)| + |f.Chan(r, c.owner)|
    requires forall q: nat :: q != r ==>
          f'.Chan(c.owner, q) == f.Chan(c.owner, q) && f'.Chan(q, c.owner) == f.Chan(q, c.owner)
    ensures Load(c, f', k) == Load(c, f, k) - if r < k then 1 else 0
  {
    if k == 0 {
    } else {
      LoadDrops(c, f, f', k - 1, r);
    }
  }

  /** Every delivery brings the system one step closer to quiescence, whichever channel is served. */
  lemma DeliveryLowersLoad(c: Config, f: Fifo, from: nat, to: nat)
    requires FifoInv(c, f) && f.Chan(from, to) != []
    ensures Load(c, FifoStep(c, f, Receipt(from, to)), c.n) == Load(c, f, c.n) - 1
  {
    var f' := FifoStep(c, f, Receipt(from, to));
    if from == c.owner {
      var reply := DownDelivery(c, f, to);
      forall a: nat, b: nat
        ensures f'.Chan(a, b) == if (a, b) == (from, to) then f.Chan(a, b)[1..]
                                 else if (a, b) == (to, from) then f.Chan(a, b) + [reply] else f.Chan(a, b)
      {
        DownChannels(c, f, to, reply, a, b);
      }
      LoadDrops(c, f, f', c.n, to);
    } else {
      UpFollower(c, f, from, from);
      LoadDrops(c, f, f', c.n, from);
    }
  }

  lemma {:induction false} QuiescentHasNoLoad(c: Config, f: Fifo, k: nat)
    requires Quiescent(f)
    ensures Load(c, f, k) == 0
  {
    if k == 0 {
    } else {
      QuiescentHasNoLoad(c, f, k - 1);
      assert f.Chan(c.owner, k - 1) == [] && f.Chan(k - 1, c.owner) == [];
    }
  }

  lemma NextDelivery(c: Config, events: seq<FifoEvent>) returns (ev: FifoEvent)
    requires c.Valid() && Load(c, FifoRun(c, events), c.n) > 0
    ensures ev.Receipt?
    ensures Load(c, FifoRun(c, events + [ev]), c.n) == Load(c, FifoRun(c, events), c.n) - 1
  {
    var f := FifoRun(c, events);
    if Quiescent(f) {
      QuiescentHasNoLoad(c, f, c.n);
    }
    var a: nat, b: nat :| f.Chan(a, b) != [];
    ev := Receipt(a, b);
    FifoRunInv(c, events);
    DeliveryLowersLoad(c, f, a, b);
    assert (events + [ev])[..|events|] == events;
  }

  lemma PushFront(events: seq<FifoEvent>, ev: FifoEvent, rest: seq<FifoEvent>) returns (all: seq<FifoEvent>)
    requires ev.Receipt? && forall e <- rest :: e.Receipt?
    ensures |all| == |rest| + 1 && events + all == events + [ev] + rest
    ensures forall e <- all :: e.Receipt?
  {
    all := [ev] + rest;
  }

  lemma {:induction false} Drain(c: Config, events: seq<FifoEvent>, load: nat) returns (deliveries: seq<FifoEvent>)
    requires c.Valid() && Load(c, FifoRun(c, events), c.n) == load
    ensures |deliveries| == load && forall ev <- deliveries :: ev.Receipt?
    ensures Load(c, FifoRun(c, events + deliveries), c.n) == 0
    decreases load
  {
    if load == 0 {
      deliveries := [];
      assert events + deliveries == events;
    } else {
      var ev := NextDelivery(c, events);
      var rest := Drain(c, events + [ev], load - 1);
      deliveries := PushFront(events, ev, rest);
    }
  }

  /** From any state reached, exactly Load deliveries lead to quiescence, and a system of two or more
      replicas then has converged. */
  lemma {:induction false} DeliveriesConverge(c: Config, events: seq<FifoEvent>) returns (deliveries: seq<FifoEvent>)
    requires c.Valid() && c.n >= 2
    ensures |deliveries| == Load(c, FifoRun(c, events), c.n) && forall ev <- deliveries :: ev.Receipt?
    ensures Quiescent(FifoRun(c, events + deliveries))
    ensures c.owner < |FifoRun(c, events + deliveries).sys.reps| && Converged(c, FifoRun(c, events + deliveries))
  {
    deliveries := Drain(c, events, Load(c, FifoRun(c, events), c.n));
    NoLoadMeansQuiescent(c, events + deliveries);
    QuiescentMeansConverged(c, events + deliveries);
  }

  lemma NoLoadMeansQuiescent(c: Config, events: seq<FifoEvent>)
    requires c.Valid() && Load(c, FifoRun(c, events), c.n) == 0
    ensures Quiescent(FifoRun(c, events))
  {
    var f := FifoRun(c, events);
    FifoRunInv(c, events);
    if a: nat, b: nat :| f.Chan(a, b) != [] {
      DeliveryLowersLoad(c, f, a, b);
    }
  }
}
