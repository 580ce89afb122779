/** When commit indices move, over whole runs of one key group: at the owner exactly when a majority has voted, and at a
    follower by what append messages carry. */
module CommitLaws {
  import Sets
  import opened Wrappers
  import opened Messages
  import opened ReplicatedLog
  import opened EntryVotes
  import opened SmrSteps
  import opened Replication
  import opened ReplicationSafety
  import opened ReceiverRule

  // ---- The owner ----

  // The vote an event makes the owner count: its own on a proposal, a peer's on its acknowledgement.
  function VoteOf(c: Config, s: System, ev: Event): Option<Call>
    requires c.owner < |s.reps|
  {
    match ev
    case Propose(_) => Some(Call(c.owner, |s.reps[c.owner].log| + 1))
    case Deliver(m) =>
      if m in s.net && m.body.AppendReply? && m.body.success then Some(Call(m.from, m.body.index)) else None
  }

  function AckOf(c: Config, s: System, ev: Event, index: nat): set<nat>
    requires c.owner < |s.reps|
  {
    match VoteOf(c, s, ev)
    case Some(call) => if call.index == index then {call.id} else {}
    case None => {}
  }

  // All replicas that voted for the index during the run.
  function Acks(c: Config, events: seq<Event>, index: nat): set<nat>
    requires c.Valid()
  {
    if events == [] then {}
    else
      var front := events[..|events| - 1];
      Acks(c, front, index)
      + if c.owner < |Run(c, front).reps| then AckOf(c, Run(c, front), events[|events| - 1], index) else {}
  }

  // The record knows the votes for the index until they are a majority, and after that only that they are.
  ghost predicate Recorded(v: VoteState, n: nat, index: nat, acks: set<nat>)
  {
    && (index in v.complete <==> Majority(|acks|, n))
    && (index !in v.complete ==> v.VotersOf(index) == acks)
  }

  lemma OneMoreVote(v: VoteState, n: nat, id: nat, voted: nat, index: nat, acks: set<nat>)
    requires Recorded(v, n, index, acks)
    ensures Recorded(CastVote(v, n, id, voted).state, n, index, acks + if index == voted then {id} else {})
  {
    CastVoteEffect(v, n, id, voted);
    if index == voted {
      QuorumIsSmallestMajority(n, |acks|);
      QuorumIsSmallestMajority(n, |acks + {id}|);
      Sets.SubsetSize(acks, acks + {id});
      if id in acks {
        assert acks + {id} == acks;
      }
    } else {
      assert acks + {} == acks;
    }
  }

  predicate WithinLog(log: seq<Entry>, index: nat, acks: set<nat>)
  {
    acks != {} ==> 1 <= index <= |log|
  }

  // What the owner's record and log say of every index.
  ghost predicate VotesKnown(c: Config, o: SmrState, events: seq<Event>)
    requires c.Valid()
  {
    && (forall index: nat :: Recorded(o.votes, c.n, index, Acks(c, events, index)))
    && (forall index: nat :: WithinLog(o.log, index, Acks(c, events, index)))
  }

  // The owner has committed up to the greatest index with a majority.
  ghost predicate CommitsGreatest(o: SmrState)
  {
    && (forall index <- o.votes.complete :: index <= o.commits)
    && (o.commits > 0 ==> o.commits in o.votes.complete)
  }

  // The owner's part before and after an event.
  ghost predicate OwnerCounts(c: Config, s: System, ev: Event, o: SmrState, o': SmrState)
    requires c.owner < |s.reps|
  {
    && o.log <= o'.log
    && match VoteOf(c, s, ev)
       case None => o'.votes == o.votes && o'.commits == o.commits
       case Some(call) =>
         && 1 <= call.index <= |o'.log|
         && o'.votes == CastVote(o.votes, c.n, call.id, call.index).state
         && var reached := ev.Deliver? && CastVote(o.votes, c.n, call.id, call.index).reached;
            o'.commits == if reached && call.index > o.commits then call.index else o.commits
  }

  lemma OwnerCountsVotes(c: Config, s: System, ev: Event)
    requires Inv(c, s)
    ensures |Step(c, s, ev).reps| == c.n
    ensures OwnerCounts(c, s, ev, s.reps[c.owner], Step(c, s, ev).reps[c.owner])
  {
    match ev
    case Propose(msg) => RequestAtOwner(c, s, msg);
    case Deliver(m) =>
      if m in s.net {
        assert MessageOk(c, s, m);
        if m.body.Append? {
          AppendIsOneReply(c, s, m);
        } else {
          ReplyDelivery(c, s, m);
          ReplyGrows(c, s, m);
        }
      }
  }

  lemma VotesStayKnown(c: Config, front: seq<Event>, ev: Event, o: SmrState, o': SmrState)
    requires c.Valid() && c.owner < |Run(c, front).reps| && VotesKnown(c, o, front)
    requires OwnerCounts(c, Run(c, front), ev, o, o')
    ensures VotesKnown(c, o', front + [ev])
  {
    var s := Run(c, front);
    assert (front + [ev])[..|front|] == front;
    forall index: nat
      ensures Recorded(o'.votes, c.n, index, Acks(c, front + [ev], index))
      ensures WithinLog(o'.log, index, Acks(c, front + [ev], index))
    {
      var acks := Acks(c, front, index);
      assert Recorded(o.votes, c.n, index, acks) && WithinLog(o.log, index, acks);
      match VoteOf(c, s, ev)
      case None => assert acks + {} == acks;
      case Some(call) => OneMoreVote(o.votes, c.n, call.id, call.index, index, acks);
    }
  }

  lemma CommitsStayGreatest(c: Config, front: seq<Event>, ev: Event, o: SmrState, o': SmrState)
    requires c.Valid() && c.n >= 2 && c.owner < |Run(c, front).reps| && VotesKnown(c, o, front) && CommitsGreatest(o)
    requires OwnerCounts(c, Run(c, front), ev, o, o')
    requires ev.Propose? ==> o.log == Run(c, front).reps[c.owner].log
    ensures CommitsGreatest(o')
  {
    match VoteOf(c, Run(c, front), ev)
    case None =>
    case Some(call) =>
      CastVoteEffect(o.votes, c.n, call.id, call.index);
      if ev.Propose? {
        assert WithinLog(o.log, call.index, Acks(c, front, call.index));
        assert Recorded(o.votes, c.n, call.index, Acks(c, front, call.index));
      }
  }

  ghost predicate OwnerOk(c: Config, o: SmrState, events: seq<Event>)
    requires c.Valid()
  {
    VotesKnown(c, o, events) && (c.n >= 2 ==> CommitsGreatest(o))
  }

  lemma StepKeepsOwner(c: Config, front: seq<Event>, ev: Event)
    requires c.Valid() && Inv(c, Run(c, front)) && OwnerOk(c, Run(c, front).reps[c.owner], front)
    ensures c.owner < |Step(c, Run(c, front), ev).reps|
    ensures OwnerOk(c, Step(c, Run(c, front), ev).reps[c.owner], front + [ev])
  {
    var s := Run(c, front);
    OwnerCountsVotes(c, s, ev);
    var o, o' := s.reps[c.owner], Step(c, s, ev).reps[c.owner];
    VotesStayKnown(c, front, ev, o, o');
    if c.n >= 2 {
      CommitsStayGreatest(c, front, ev, o, o');
    }
  }

  lemma {:induction false} RunVotes(c: Config, events: seq<Event>)
    requires c.Valid()
    ensures c.owner < |Run(c, events).reps| && OwnerOk(c, Run(c, events).reps[c.owner], events)
  {
    if events == [] {
    } else {
      var front, last := events[..|events| - 1], events[|events| - 1];
      RunInv(c, front);
      RunVotes(c, front);
      StepKeepsOwner(c, front, last);
      assert front + [last] == events;
    }
  }

  /** The owner's commit index, in every run of two replicas or more, is the greatest index for which more than half of
      the replicas have voted: the owner by proposing it, the others by acknowledgements that arrived. */
  lemma OwnerCommitsAtMajority(c: Config, events: seq<Event>)
    requires c.Valid() && c.n >= 2
    ensures c.owner < |Run(c, events).reps|
    ensures forall index: nat :: 2 * |Acks(c, events, index)| > c.n ==> index <= OwnerCommit(c, events)
    ensures OwnerCommit(c, events) > 0 ==> 2 * |Acks(c, events, OwnerCommit(c, events))| > c.n
  {
    RunVotes(c, events);
    var o := Run(c, events).reps[c.owner];
    forall index: nat | 2 * |Acks(c, events, index)| > c.n
      ensures index <= o.commits
    {
      assert Recorded(o.votes, c.n, index, Acks(c, events, index));
    }
    assert Recorded(o.votes, c.n, o.commits, Acks(c, events, o.commits));
  }

  // ---- Followers ----

  // The message went out when the owner had this log and commit index.
  predicate SentAt(c: Config, events: seq<Event>, m: GenericMessage, i: nat)
    requires c.Valid() && i < |events| && c.owner < |Run(c, events[..i]).reps|
  {
    && events[i].Propose? && m.body.Append?
    && m.body.prevIndex == |OwnerLog(c, events[..i])| && m.body.commit == OwnerCommit(c, events[..i])
  }

  lemma NewAppend(c: Config, s: System, ev: Event, m: GenericMessage)
    requires Inv(c, s) && m in Step(c, s, ev).net && m !in s.net && m.body.Append?
    ensures ev.Propose? && m.body.prevIndex == |s.reps[c.owner].log| && m.body.commit == s.reps[c.owner].commits
  {
    match ev
    case Propose(msg) =>
      var log := Appended(s.reps[c.owner].log, msg.epoch, msg.op);
      BroadcastContents(c.n, c.owner, AnnounceLast(log, s.reps[c.owner].commits, c.gid));
    case Deliver(d) =>
      if d in s.net && d.body.Append? {
        AppendIsOneReply(c, s, d);
      } else if d in s.net {
        assert MessageOk(c, s, d);
        ReplyGrows(c, s, d);
      }
  }

  /** Every append message ever sent carries the owner's commit index at the time it was sent, and the index of the
      entry before the one then proposed. */
  lemma {:induction false} AppendCarriesCommit(c: Config, events: seq<Event>, m: GenericMessage) returns (i: nat)
    requires c.Valid() && m in Run(c, events).net && m.body.Append?
    ensures i < |events| && c.owner < |Run(c, events[..i]).reps| && SentAt(c, events, m, i)
  {
    assert events != [];
    var front, last := events[..|events| - 1], events[|events| - 1];
    RunInv(c, front);
    if m in Run(c, front).net {
      i := AppendCarriesCommit(c, front, m);
      assert front[..i] == events[..i];
    } else {
      NewAppend(c, Run(c, front), last, m);
      i := |events| - 1;
    }
  }

  /** A follower that takes an append message commits exactly as far as the message's commit index, its own log and what
      it had committed say, and keeps that in every later state. */
  lemma {:induction false} FollowerCommits(c: Config, events: seq<Event>, i: nat, m: GenericMessage)
    requires c.Valid() && i < |events| && events[i] == Deliver(m) && m in Run(c, events[..i]).net && m.body.Append?
    ensures m.to < c.n == |Run(c, events[..i]).reps| == |Run(c, events[..i + 1]).reps| == |Run(c, events).reps|
    ensures var f, f' := Run(c, events[..i]).reps[m.to], Run(c, events[..i + 1]).reps[m.to];
            f'.commits == if m.body.prevIndex > |f.log| || m.body.commit <= f.commits then f.commits
                          else if m.body.commit <= |f'.log| then m.body.commit else |f'.log|
    ensures Run(c, events[..i + 1]).reps[m.to].commits <= Run(c, events).reps[m.to].commits
  {
    assert events[..i + 1][..i] == events[..i] && events[..|events|] == events;
    RunInv(c, events[..i]);
    RunInv(c, events);
    RunGrows(c, events, i + 1, |events|);
    var s := Run(c, events[..i]);
    assert MessageOk(c, s, m);
    AppendDelivery(c, s, m);
    AppendIsOneReply(c, s, m);
    TakenCommit(s.reps[m.to], s.reps[c.owner], c.gid, m.body, m.from);
  }

  lemma TakenCommit(f: SmrState, o: SmrState, gid: nat, m: Body, from: nat)
    requires WellIndexed(o.log) && f.log <= o.log && f.commits <= |f.log| && f.commits <= o.commits
    requires m.Append? && |m.entries| == 1 && m.prevIndex < |o.log| && m.commit <= o.commits
    requires m.prevTerm == EntryAt(o.log, m.prevIndex).epoch && m.entries[0] == o.log[m.prevIndex]
    requires !AppendAborts(f, m)
    ensures var f' := AppendStep(f, gid, m, from).state;
            f'.commits == if m.prevIndex > |f.log| || m.commit <= f.commits then f.commits
                          else if m.commit <= |f'.log| then m.commit else |f'.log|
  {
    FollowerTakes(f, o, gid, m, from);
    OneEntryCommit(f, gid, m, from);
    assert PrevMatches(f.log, m.prevTerm, m.prevIndex) <==> m.prevIndex <= |f.log|;
  }
}
