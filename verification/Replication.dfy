/** One key group on n replicas with a fixed owner, over a network that may lose, duplicate and reorder
    messages: a message once sent stays available, and may be delivered any number of times or never. */
module Replication {
  import Sets
  import opened Messages
  import opened ReplicatedLog
  import opened EntryVotes
  import opened SmrSteps
  import opened ReceiverRule

  // `epoch` is the epoch of the guidance all replicas share; it never changes.
  datatype Config = Config(n: nat, owner: nat, gid: nat, epoch: nat) {
    predicate Valid() { owner < n }
  }

  // `applied` is the concatenation of all batches handed over at the owner.
  datatype System = System(reps: seq<SmrState>, net: set<GenericMessage>, applied: seq<Entry>, aborted: bool)

  datatype Event =
    | Propose(msg: ClientMessage)      // arrives at the owner
    | Deliver(m: GenericMessage)

  function Initial(c: Config): System
  {
    System(seq(c.n, i => FRESH), {}, [], false)
  }

  function Stamp(m: GenericMessage, from: nat, epoch: nat): GenericMessage
  {
    m.(from := from, epoch := epoch)
  }

  function Stamped(out: seq<GenericMessage>, from: nat, epoch: nat): set<GenericMessage>
  {
    set i | 0 <= i < |out| :: Stamp(out[i], from, epoch)
  }

  function Stepping(c: Config, s: System, r: nat, step: Stepped): System
    requires r < |s.reps|
  {
    System(s.reps[r := step.state], s.net + Stamped(step.out, r, c.epoch), s.applied + step.applied, s.aborted)
  }

  // What delivering the message would run into an ABORT_F, or index outside a vector.
  predicate Aborts(c: Config, s: System, m: GenericMessage)
  {
    m.to >= |s.reps| ||
    match m.body
    case Append(_, _, _, _, _) => AppendAborts(s.reps[m.to], m.body)
    case AppendReply(_, _, _) =>
      m.from >= c.n || !WellIndexed(s.reps[m.to].log) || ReplyAborts(s.reps[m.to], c.n, m.body, m.from)
    case GuidanceBody(_, _) => false
  }

  // One event.  A message that was never sent cannot be delivered: nothing happens.
  function Step(c: Config, s: System, ev: Event): System
  {
    match ev
    case Propose(msg) =>
      if c.owner >= |s.reps| then s
      else Stepping(c, s, c.owner, OperationStep(s.reps[c.owner], c.n, c.owner, c.gid, msg))
    case Deliver(m) =>
      if m !in s.net || m.body.GuidanceBody? then s
      else if Aborts(c, s, m) then s.(aborted := true)
      else if m.body.Append? then Stepping(c, s, m.to, AppendStep(s.reps[m.to], c.gid, m.body, m.from))
      else Stepping(c, s, m.to, ReplyStep(s.reps[m.to], c.n, m.body, m.from))
  }

  // The state after any sequence of events: every run of the system.
  function Run(c: Config, events: seq<Event>): System
  {
    if events == [] then Initial(c)
    else Step(c, Run(c, events[..|events| - 1]), events[|events| - 1])
  }

  // ---- The invariant ----

  // Replicas whose log has at least k entries.
  function Holders(s: System, k: nat): set<nat>
  {
    set r | r in Sets.Below(|s.reps|) && |s.reps[r].log| >= k
  }

  ghost predicate LogsOk(c: Config, s: System)
    requires c.owner < |s.reps|
  {
    && WellIndexed(s.reps[c.owner].log)
    && forall r :: 0 <= r < |s.reps| ==> s.reps[r].log <= s.reps[c.owner].log
  }

  ghost predicate CommitsOk(c: Config, s: System)
    requires c.owner < |s.reps|
  {
    && (forall r :: 0 <= r < |s.reps| ==>
          s.reps[r].commits <= |s.reps[r].log| && s.reps[r].commits <= s.reps[c.owner].commits)
    && 2 * |Holders(s, s.reps[c.owner].commits)| > c.n
    && s.applied == s.reps[c.owner].log[..s.reps[c.owner].commits]
  }

  // An append message says what the owner's log says at its positions, and has exactly one entry.
  ghost predicate AppendOk(c: Config, s: System, m: GenericMessage)
    requires m.body.Append? && c.owner < |s.reps|
  {
    var log := s.reps[c.owner].log;
    && m.from == c.owner && m.to != c.owner
    && |m.body.entries| == 1
    && m.body.prevIndex < |log|
    && m.body.prevTerm == EntryAt(log, m.body.prevIndex).epoch
    && m.body.entries[0] == log[m.body.prevIndex]
    && m.body.commit <= s.reps[c.owner].commits
  }

  // A reply names an index its sender really holds.
  ghost predicate ReplyOk(c: Config, s: System, m: GenericMessage)
    requires m.body.AppendReply? && m.from < |s.reps|
  {
    && m.to == c.owner && m.from != c.owner
    && m.body.index <= |s.reps[m.from].log|
    && (m.body.success ==> m.body.index >= 1)
  }

  ghost predicate MessageOk(c: Config, s: System, m: GenericMessage)
    requires c.owner < |s.reps| == c.n
  {
    && m.to < c.n && m.from < c.n && m.epoch == c.epoch
    && match m.body
       case Append(_, _, _, g, _) => g == c.gid && AppendOk(c, s, m)
       case AppendReply(_, g, _) => g == c.gid && ReplyOk(c, s, m)
       case GuidanceBody(_, _) => false
  }

  ghost predicate NetOk(c: Config, s: System)
    requires c.owner < |s.reps| == c.n
  {
    forall m <- s.net :: MessageOk(c, s, m)
  }

  // A recorded vote for an index comes from a replica that holds the entry.
  ghost predicate VotesOk(c: Config, s: System)
    requires c.owner < |s.reps|
  {
    var v := s.reps[c.owner].votes;
    forall index <- v.voters :: v.voters[index] <= Holders(s, index) && index <= |s.reps[c.owner].log|
  }

  ghost predicate Inv(c: Config, s: System)
  {
    && c.owner < |s.reps| == c.n
    && !s.aborted
    && LogsOk(c, s)
    && CommitsOk(c, s)
    && NetOk(c, s)
    && VotesOk(c, s)
  }

  lemma InitialInv(c: Config)
    requires c.Valid()
    ensures Inv(c, Initial(c))
  {
    assert Holders(Initial(c), 0) == Sets.Below(c.n);
  }

  // What no step undoes: logs only grow at the end, commit indices never decrease, messages stay.
  ghost predicate Grows(s: System, s': System)
  {
    && |s.reps| == |s'.reps|
    && (forall r :: 0 <= r < |s.reps| ==> s.reps[r].log <= s'.reps[r].log && s.reps[r].commits <= s'.reps[r].commits)
    && s.net <= s'.net
    && s.applied <= s'.applied
  }

  lemma HoldersGrow(s: System, s': System, k: nat)
    requires Grows(s, s')
    ensures Holders(s, k) <= Holders(s', k) && |Holders(s, k)| <= |Holders(s', k)|
  {
    Sets.SubsetSize(Holders(s, k), Holders(s', k));
  }

  // Messages and votes that were in order stay so while logs grow.
  lemma MessageStaysOk(c: Config, s: System, s': System, m: GenericMessage)
    requires c.owner < |s.reps| == c.n && Grows(s, s') && MessageOk(c, s, m)
    ensures MessageOk(c, s', m)
  {
  }

  lemma NetStaysOk(c: Config, s: System, s': System, wire: set<GenericMessage>)
    requires c.owner < |s.reps| == c.n && Grows(s, s') && NetOk(c, s) && s'.net == s.net + wire
    requires forall m <- wire :: MessageOk(c, s', m)
    ensures NetOk(c, s')
  {
    forall m <- s'.net
      ensures MessageOk(c, s', m)
    {
      if m in s.net {
        MessageStaysOk(c, s, s', m);
      }
    }
  }

  // The owner has appended, voted for itself and announced the entry.
  lemma OwnerAppended(c: Config, s: System, s': System, out: seq<GenericMessage>)
    requires Inv(c, s) && Grows(s, s') && !s'.aborted && s'.applied == s.applied
    requires s'.net == s.net + Stamped(out, c.owner, c.epoch)
    requires forall r :: 0 <= r < c.n && r != c.owner ==> s'.reps[r] == s.reps[r]
    requires s'.reps[c.owner].commits == s.reps[c.owner].commits
    requires WellIndexed(s'.reps[c.owner].log) && |s'.reps[c.owner].log| == |s.reps[c.owner].log| + 1
    requires forall i :: 0 <= i < |out| ==> out[i].to < c.n && out[i].to != c.owner
    requires forall i :: 0 <= i < |out| ==>
               out[i].body == AnnounceLast(s'.reps[c.owner].log, s.reps[c.owner].commits, c.gid)
    requires VotesOk(c, s')
    ensures Inv(c, s')
  {
    HoldersGrow(s, s', s.reps[c.owner].commits);
    NetStaysOk(c, s, s', Stamped(out, c.owner, c.epoch));
  }

  lemma ProposeKeeps(c: Config, s: System, msg: ClientMessage)
    requires Inv(c, s)
    ensures Inv(c, Step(c, s, Propose(msg))) && Grows(s, Step(c, s, Propose(msg)))
  {
    var s' := Step(c, s, Propose(msg));
    var step := OperationStep(s.reps[c.owner], c.n, c.owner, c.gid, msg);
    LastIndexIsLength(s.reps[c.owner].log);
    assert Grows(s, s');
    BroadcastContents(c.n, c.owner, AnnounceLast(step.state.log, s.reps[c.owner].commits, c.gid));
    VoteKeeps(c, s, s', c.owner, |step.state.log|);
    OwnerAppended(c, s, s', step.out);
  }

  lemma RequestAtOwner(c: Config, s: System, msg: ClientMessage)
    requires Inv(c, s)
    ensures var o, o' := s.reps[c.owner], Step(c, s, Propose(msg)).reps[c.owner];
            && |Step(c, s, Propose(msg)).reps| == c.n
            && o'.log == Appended(o.log, msg.epoch, msg.op) && o'.commits == o.commits
            && o'.votes == CastVote(o.votes, c.n, c.owner, |o.log| + 1).state
  {
    LastIndexIsLength(s.reps[c.owner].log);
  }

  lemma {:induction false} BroadcastContents(n: nat, me: nat, body: Body)
    ensures forall i :: 0 <= i < |Broadcast(n, me, body)| ==>
              var m := Broadcast(n, me, body)[i];
              m.body == body && m.to < n && m.to != me
  {
    if n == 0 {
    } else {
      BroadcastContents(n - 1, me, body);
    }
  }

  // Recording one more vote, by a replica that holds the entry.
  lemma VoteKeeps(c: Config, s: System, s': System, id: nat, index: nat)
    requires c.owner < |s.reps| && VotesOk(c, s) && Grows(s, s')
    requires s'.reps[c.owner].votes == CastVote(s.reps[c.owner].votes, c.n, id, index).state
    requires id in Holders(s', index) && index <= |s'.reps[c.owner].log|
    ensures VotesOk(c, s')
    ensures CastVote(s.reps[c.owner].votes, c.n, id, index).reached ==> 2 * |Holders(s', index)| > c.n
  {
    var v, v' := s.reps[c.owner].votes, s'.reps[c.owner].votes;
    forall i <- v'.voters
      ensures v'.voters[i] <= Holders(s', i) && i <= |s'.reps[c.owner].log|
    {
      HoldersGrow(s, s', i);
    }
    if CastVote(v, c.n, id, index).reached {
      Sets.SubsetSize(v'.voters[index], Holders(s', index));
    }
  }

  // A log that is a prefix of the owner's is extended by the next entry, and otherwise kept.
  lemma PrefixReceives(log: seq<Entry>, ownerLog: seq<Entry>, prevIndex: nat)
    requires WellIndexed(ownerLog) && log <= ownerLog && prevIndex < |ownerLog|
    ensures Receive(log, EntryAt(ownerLog, prevIndex).epoch, prevIndex, [ownerLog[prevIndex]])
            == if prevIndex > |log| then Rejected
               else Accepted(if prevIndex == |log| then ownerLog[..|log| + 1] else log)
  {
    OneEntryRule(log, EntryAt(ownerLog, prevIndex).epoch, prevIndex, ownerLog[prevIndex]);
    if prevIndex == |log| {
      assert log + [Placed(ownerLog[prevIndex], |log|)] == ownerLog[..|log| + 1];
    }
  }

  // What a follower does with a message that repeats the owner's log.
  lemma FollowerTakes(f: SmrState, o: SmrState, gid: nat, m: Body, from: nat)
    requires WellIndexed(o.log) && f.log <= o.log && f.commits <= |f.log| && f.commits <= o.commits
    requires m.Append? && |m.entries| == 1 && m.prevIndex < |o.log| && m.commit <= o.commits
    requires m.prevTerm == EntryAt(o.log, m.prevIndex).epoch && m.entries[0] == o.log[m.prevIndex]
    ensures !AppendAborts(f, m)
    ensures var step := AppendStep(f, gid, m, from);
            && f.log <= step.state.log <= o.log
            && step.state.votes == f.votes && step.applied == []
            && f.commits <= step.state.commits <= |step.state.log|
            && step.state.commits <= o.commits
            && step.out == [ReplyTo(from, m.prevIndex <= |f.log|, gid, |step.state.log|)]
            && step.state.log == (if m.prevIndex == |f.log| then o.log[..|f.log| + 1] else f.log)
  {
    assert m.entries == [m.entries[0]];
    PrefixReceives(f.log, o.log, m.prevIndex);
    LastIndexIsLength(AppendStep(f, gid, m, from).state.log);
  }

  lemma AppendDelivery(c: Config, s: System, m: GenericMessage)
    requires Inv(c, s) && m in s.net && m.body.Append?
    ensures !Aborts(c, s, m)
    ensures var step := AppendStep(s.reps[m.to], c.gid, m.body, m.from);
            var log, log' := s.reps[m.to].log, step.state.log;
            && log <= log' <= s.reps[c.owner].log
            && step.state.votes == s.reps[m.to].votes && step.applied == []
            && s.reps[m.to].commits <= step.state.commits <= |log'|
            && step.state.commits <= s.reps[c.owner].commits
            && step.out == [ReplyTo(m.from, m.body.prevIndex <= |log|, c.gid, |log'|)]
            && log' == (if m.body.prevIndex == |log| then s.reps[c.owner].log[..|log| + 1] else log)
  {
    assert MessageOk(c, s, m);
    FollowerTakes(s.reps[m.to], s.reps[c.owner], c.gid, m.body, m.from);
  }

  // A follower's log has grown towards the owner's, and it has replied.
  lemma FollowerChanged(c: Config, s: System, r: nat, st: SmrState, wire: set<GenericMessage>)
    requires Inv(c, s) && r < c.n && r != c.owner
    requires s.reps[r].log <= st.log <= s.reps[c.owner].log
    requires s.reps[r].commits <= st.commits <= |st.log| && st.commits <= s.reps[c.owner].commits
    ensures var s' := System(s.reps[r := st], s.net + wire, s.applied, false);
            && Grows(s, s')
            && ((forall m <- wire :: MessageOk(c, s', m)) ==> Inv(c, s'))
  {
    var s' := System(s.reps[r := st], s.net + wire, s.applied, false);
    assert Grows(s, s');
    HoldersGrow(s, s', s.reps[c.owner].commits);
    if forall m <- wire :: MessageOk(c, s', m) {
      NetStaysOk(c, s, s', wire);
    }
    forall index <- s.reps[c.owner].votes.voters
      ensures s.reps[c.owner].votes.voters[index] <= Holders(s', index)
    {
      HoldersGrow(s, s', index);
    }
  }

  lemma AppendIsOneReply(c: Config, s: System, m: GenericMessage)
    requires Inv(c, s) && m in s.net && m.body.Append?
    ensures m.to < c.n && m.to != c.owner && !Aborts(c, s, m)
    ensures var step := AppendStep(s.reps[m.to], c.gid, m.body, m.from);
            var reply := GenericMessage(c.owner, m.to, c.epoch,
                           AppendReply(m.body.prevIndex <= |s.reps[m.to].log|, c.gid, |step.state.log|));
            && Step(c, s, Deliver(m)) == System(s.reps[m.to := step.state], s.net + {reply}, s.applied, false)
            && (m.body.prevIndex <= |s.reps[m.to].log| ==> |step.state.log| >= 1)
  {
    assert MessageOk(c, s, m);
    AppendDelivery(c, s, m);
    var step := AppendStep(s.reps[m.to], c.gid, m.body, m.from);
    assert Stamped(step.out, m.to, c.epoch) == {Stamp(step.out[0], m.to, c.epoch)};
    assert s.applied + step.applied == s.applied;
  }

  lemma AppendKeeps(c: Config, s: System, m: GenericMessage)
    requires Inv(c, s) && m in s.net && m.body.Append?
    ensures Inv(c, Step(c, s, Deliver(m))) && Grows(s, Step(c, s, Deliver(m)))
  {
    AppendDelivery(c, s, m);
    AppendIsOneReply(c, s, m);
    var st := AppendStep(s.reps[m.to], c.gid, m.body, m.from).state;
    var reply := GenericMessage(c.owner, m.to, c.epoch,
                   AppendReply(m.body.prevIndex <= |s.reps[m.to].log|, c.gid, |st.log|));
    FollowerChanged(c, s, m.to, st, {reply});
    assert MessageOk(c, Step(c, s, Deliver(m)), reply);
  }

  lemma ReplyDelivery(c: Config, s: System, m: GenericMessage)
    requires Inv(c, s) && m in s.net && m.body.AppendReply?
    ensures !Aborts(c, s, m)
    ensures var v := CastVote(s.reps[c.owner].votes, c.n, m.from, m.body.index);
            var step := ReplyStep(s.reps[c.owner], c.n, m.body, m.from);
            && step.out == []
            && step.state.log == s.reps[c.owner].log
            && step.state.votes == (if m.body.success then v.state else s.reps[c.owner].votes)
            && step.state.commits
               == (if m.body.success && v.reached
                   then Max(s.reps[c.owner].commits, m.body.index) else s.reps[c.owner].commits)
            && step.applied == s.reps[c.owner].log[s.reps[c.owner].commits..step.state.commits]
  {
    LastIndexIsLength(s.reps[c.owner].log);
  }

  // The owner has recorded a vote, and committed and applied what that completed.
  lemma OwnerCommitted(c: Config, s: System, s': System)
    requires Inv(c, s) && Grows(s, s') && !s'.aborted && s'.net == s.net
    requires forall r :: 0 <= r < c.n && r != c.owner ==> s'.reps[r] == s.reps[r]
    requires s'.reps[c.owner].log == s.reps[c.owner].log && s'.reps[c.owner].commits <= |s.reps[c.owner].log|
    requires s'.applied == s.reps[c.owner].log[..s'.reps[c.owner].commits]
    requires s'.reps[c.owner].commits > s.reps[c.owner].commits ==>
               2 * |Holders(s', s'.reps[c.owner].commits)| > c.n
    requires VotesOk(c, s')
    ensures Inv(c, s')
  {
    assert LogsOk(c, s');
    assert CommitsOk(c, s') by {
      HoldersGrow(s, s', s.reps[c.owner].commits);
    }
    NetStaysOk(c, s, s', {});
  }

  lemma ReplyGrows(c: Config, s: System, m: GenericMessage)
    requires Inv(c, s) && m in s.net && m.body.AppendReply?
    ensures var s' := Step(c, s, Deliver(m));
            && Grows(s, s') && !s'.aborted && s'.net == s.net
            && s' == Stepping(c, s, c.owner, ReplyStep(s.reps[c.owner], c.n, m.body, m.from))
  {
    assert MessageOk(c, s, m);
    ReplyDelivery(c, s, m);
    var step := ReplyStep(s.reps[c.owner], c.n, m.body, m.from);
    assert Stamped(step.out, c.owner, c.epoch) == {};
  }

  lemma ReplierHolds(c: Config, s: System, s': System, m: GenericMessage)
    requires Inv(c, s) && m in s.net && m.body.AppendReply? && Grows(s, s')
    ensures m.from in Holders(s', m.body.index) && m.body.index <= |s.reps[c.owner].log| <= |s'.reps[c.owner].log|
    ensures s.reps[c.owner].commits <= |s.reps[c.owner].log|
    ensures s.applied == s.reps[c.owner].log[..s.reps[c.owner].commits]
  {
    assert MessageOk(c, s, m);
  }

  lemma AppliedExtends(log: seq<Entry>, applied: seq<Entry>, a: nat, b: nat)
    requires a <= b <= |log| && applied == log[..a]
    ensures applied + log[a..b] == log[..b]
  {
  }

  // What counting a vote commits is within the log and held by a quorum.
  lemma CountedCommits(c: Config, s: System, s': System, m: GenericMessage)
    requires Inv(c, s) && m in s.net && m.body.AppendReply? && Grows(s, s')
    requires s'.reps[c.owner].log == s.reps[c.owner].log
    requires s'.reps[c.owner].votes == CastVote(s.reps[c.owner].votes, c.n, m.from, m.body.index).state
    requires s'.reps[c.owner].commits
             == if CastVote(s.reps[c.owner].votes, c.n, m.from, m.body.index).reached
                then Max(s.reps[c.owner].commits, m.body.index) else s.reps[c.owner].commits
    ensures VotesOk(c, s') && s'.reps[c.owner].commits <= |s.reps[c.owner].log|
    ensures s'.reps[c.owner].commits > s.reps[c.owner].commits ==>
              |Holders(s', s'.reps[c.owner].commits)| >= Quorum(c.n)
  {
    ReplierHolds(c, s, s', m);
    VoteKeeps(c, s, s', m.from, m.body.index);
  }

  // The owner has taken in a successful reply.
  lemma CountedKeeps(c: Config, s: System, s': System, m: GenericMessage)
    requires Inv(c, s) && m in s.net && m.body.AppendReply?
    requires Grows(s, s') && !s'.aborted && s'.net == s.net
    requires forall r :: 0 <= r < c.n && r != c.owner ==> s'.reps[r] == s.reps[r]
    requires s'.reps[c.owner].log == s.reps[c.owner].log
    requires s'.reps[c.owner].votes == CastVote(s.reps[c.owner].votes, c.n, m.from, m.body.index).state
    requires s'.reps[c.owner].commits
             == if CastVote(s.reps[c.owner].votes, c.n, m.from, m.body.index).reached
                then Max(s.reps[c.owner].commits, m.body.index) else s.reps[c.owner].commits
    requires s'.applied == s.applied + s.reps[c.owner].log[s.reps[c.owner].commits..s'.reps[c.owner].commits]
    ensures Inv(c, s')
  {
    CountedCommits(c, s, s', m);
    ReplierHolds(c, s, s', m);
    AppliedExtends(s.reps[c.owner].log, s.applied, s.reps[c.owner].commits, s'.reps[c.owner].commits);
    OwnerCommitted(c, s, s');
  }

  lemma ReplyKeeps(c: Config, s: System, m: GenericMessage)
    requires Inv(c, s) && m in s.net && m.body.AppendReply?
    ensures Inv(c, Step(c, s, Deliver(m))) && Grows(s, Step(c, s, Deliver(m)))
  {
    ReplyGrows(c, s, m);
    ReplyDelivery(c, s, m);
    if m.body.success {
      CountedKeeps(c, s, Step(c, s, Deliver(m)), m);
    } else {
      assert Step(c, s, Deliver(m)).reps == s.reps;
      assert Step(c, s, Deliver(m)) == s;
    }
  }

  lemma StepKeeps(c: Config, s: System, ev: Event)
    requires Inv(c, s)
    ensures Inv(c, Step(c, s, ev)) && Grows(s, Step(c, s, ev))
  {
    match ev
    case Propose(msg) => ProposeKeeps(c, s, msg);
    case Deliver(m) =>
      if m in s.net {
        if m.body.Append? { AppendKeeps(c, s, m); } else { ReplyKeeps(c, s, m); }
      }
  }

  lemma {:induction false} RunInv(c: Config, events: seq<Event>)
    requires c.Valid()
    ensures Inv(c, Run(c, events))
  {
    if events == [] {
      InitialInv(c);
    } else {
      var front := events[..|events| - 1];
      RunInv(c, front);
      StepKeeps(c, Run(c, front), events[|events| - 1]);
    }
  }

  lemma {:induction false} RunGrows(c: Config, events: seq<Event>, i: nat, j: nat)
    requires c.Valid() && i <= j <= |events|
    ensures Grows(Run(c, events[..i]), Run(c, events[..j]))
    decreases j - i
  {
    if i == j {
    } else {
      assert events[..j][..j - 1] == events[..j - 1];
      RunGrows(c, events, i, j - 1);
      RunInv(c, events[..j - 1]);
      StepKeeps(c, Run(c, events[..j - 1]), events[j - 1]);
    }
  }
}
