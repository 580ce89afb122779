/** What holds in every run of one key group, however messages are lost, duplicated and reordered. */
module ReplicationSafety {
  import Sets
  import opened Messages
  import opened ReplicatedLog
  import opened EntryVotes
  import opened SmrSteps
  import opened Replication

  function OwnerLog(c: Config, events: seq<Event>): seq<Entry>
    requires c.Valid() && c.owner < |Run(c, events).reps|
  {
    Run(c, events).reps[c.owner].log
  }

  function OwnerCommit(c: Config, events: seq<Event>): nat
    requires c.Valid() && c.owner < |Run(c, events).reps|
  {
    Run(c, events).reps[c.owner].commits
  }

  // The committed part of replica r's log after the events.
  function Committed(c: Config, events: seq<Event>, r: nat): seq<Entry>
    requires r < |Run(c, events).reps| && Run(c, events).reps[r].commits <= |Run(c, events).reps[r].log|
  {
    Run(c, events).reps[r].log[..Run(c, events).reps[r].commits]
  }

  /** Every replica's log is a prefix of the owner's. */
  lemma LogsArePrefixes(c: Config, events: seq<Event>, r: nat)
    requires c.Valid() && r < c.n
    ensures var s := Run(c, events);
            |s.reps| == c.n && WellIndexed(s.reps[c.owner].log) && s.reps[r].log <= s.reps[c.owner].log
  {
    RunInv(c, events);
  }

  /** Every append message ever sent, at any time of the run, carries exactly one entry, and its previous
      position and its entry are those of the owner's log, now and later. */
  lemma {:induction false} AppendMessagesAreFaithful(c: Config, events: seq<Event>, i: nat, m: GenericMessage)
    requires c.Valid() && i <= |events| && m in Run(c, events[..i]).net && m.body.Append?
    ensures var s := Run(c, events);
            && |s.reps| == c.n && m.from == c.owner && m.to < c.n && m.to != c.owner
            && |m.body.entries| == 1
            && m.body.prevIndex < |s.reps[c.owner].log|
            && m.body.prevTerm == EntryAt(s.reps[c.owner].log, m.body.prevIndex).epoch
            && m.body.entries[0] == s.reps[c.owner].log[m.body.prevIndex]
  {
    assert events[..|events|] == events;
    RunGrows(c, events, i, |events|);
    RunInv(c, events);
  }

  /** No run reaches an ABORT_F or indexes outside a vector. */
  lemma NeverAborts(c: Config, events: seq<Event>)
    requires c.Valid()
    ensures !Run(c, events).aborted
    ensures forall m <- Run(c, events).net :: !m.body.GuidanceBody? && !Aborts(c, Run(c, events), m)
  {
    RunInv(c, events);
    forall m <- Run(c, events).net
      ensures !Aborts(c, Run(c, events), m)
    {
      if m.body.Append? {
        AppendDelivery(c, Run(c, events), m);
      } else {
        ReplyDelivery(c, Run(c, events), m);
      }
    }
  }

  // All these replicas have the entries at the start of their log.
  ghost predicate Holding(s: System, entries: seq<Entry>, held: set<nat>)
  {
    forall r <- held :: r < |s.reps| && entries <= s.reps[r].log
  }

  ghost predicate HeldByQuorum(c: Config, s: System, entries: seq<Entry>)
  {
    exists held: set<nat> :: 2 * |held| > c.n && Holding(s, entries, held)
  }

  /** Quorum durability: what the owner has committed after i events is held, in every later state,
      by more than half of the replicas. */
  lemma QuorumDurability(c: Config, events: seq<Event>, i: nat, j: nat)
    requires c.Valid() && i <= j <= |events|
    ensures c.owner < |Run(c, events[..i]).reps| && |Run(c, events[..j]).reps| == c.n
    ensures OwnerCommit(c, events[..i]) <= |OwnerLog(c, events[..i])|
    ensures HeldByQuorum(c, Run(c, events[..j]), OwnerLog(c, events[..i])[..OwnerCommit(c, events[..i])])
  {
    var s, s' := Run(c, events[..i]), Run(c, events[..j]);
    RunInv(c, events[..i]);
    RunInv(c, events[..j]);
    RunGrows(c, events, i, j);
    var held := Holders(s, s.reps[c.owner].commits);
    var committed := s.reps[c.owner].log[..s.reps[c.owner].commits];
    forall r <- held
      ensures r < c.n && committed <= s'.reps[r].log
    {
      assert s.reps[r].log <= s.reps[c.owner].log && s.reps[r].log <= s'.reps[r].log;
    }
    assert Holding(s', committed, held);
  }

  /** State machine safety: commit indices never decrease and never pass the owner's, what a replica has
      committed it keeps unchanged, and any two replicas, at any two times, agree on the shorter of their
      committed prefixes. */
  lemma StateMachineSafety(c: Config, events: seq<Event>, i: nat, j: nat, p: nat, q: nat)
    requires c.Valid() && i <= j <= |events| && p < c.n && q < c.n
    ensures var s, s' := Run(c, events[..i]), Run(c, events[..j]);
            && |s.reps| == |s'.reps| == c.n
            && s.reps[p].commits <= |s.reps[p].log| && s'.reps[q].commits <= |s'.reps[q].log|
            && s.reps[p].commits <= s'.reps[p].commits <= s'.reps[c.owner].commits
            && s.reps[p].log <= s'.reps[p].log
    ensures Committed(c, events[..i], p) <= Committed(c, events[..j], q)
            || Committed(c, events[..j], q) <= Committed(c, events[..i], p)
  {
    RunInv(c, events[..i]);
    RunInv(c, events[..j]);
    RunGrows(c, events, i, j);
    var log := OwnerLog(c, events[..j]);
    var a, b := Committed(c, events[..i], p), Committed(c, events[..j], q);
    assert a <= log && b <= log;
    assert a == log[..|a|] && b == log[..|b|];
  }

  /** Application order: whatever order indices reach their quorum in, the batches handed over so far,
      one after the other, are the owner's entries 1..commit: no gap, no repeat. */
  lemma AppliedInOrder(c: Config, events: seq<Event>)
    requires c.Valid()
    ensures c.owner < |Run(c, events).reps| && OwnerCommit(c, events) <= |OwnerLog(c, events)|
    ensures Run(c, events).applied == OwnerLog(c, events)[..OwnerCommit(c, events)]
    ensures forall k :: 0 <= k < |Run(c, events).applied| ==> Run(c, events).applied[k].index == k + 1
  {
    RunInv(c, events);
  }

  // The operations proposed so far, in order.
  function Proposals(events: seq<Event>): seq<ClientMessage>
  {
    if events == [] then []
    else
      Proposals(events[..|events| - 1])
      + if events[|events| - 1].Propose? then [events[|events| - 1].msg] else []
  }

  /** The owner's log holds exactly the operations proposed, each once, in the order they arrived. */
  lemma {:induction false} OwnerLogIsProposals(c: Config, events: seq<Event>)
    requires c.Valid()
    ensures c.owner < |Run(c, events).reps| && |OwnerLog(c, events)| == |Proposals(events)|
    ensures forall i :: 0 <= i < |Proposals(events)| ==>
              OwnerLog(c, events)[i] == Entry(Proposals(events)[i].epoch, i + 1, Proposals(events)[i].op)
  {
    RunInv(c, events);
    if events == [] {
    } else {
      var front := events[..|events| - 1];
      OwnerLogIsProposals(c, front);
      RunInv(c, front);
      OwnerLogStep(c, Run(c, front), events[|events| - 1]);
    }
  }

  lemma OwnerLogStep(c: Config, s: System, ev: Event)
    requires Inv(c, s)
    ensures |Step(c, s, ev).reps| == c.n
    ensures Step(c, s, ev).reps[c.owner].log
            == if ev.Propose? then Appended(s.reps[c.owner].log, ev.msg.epoch, ev.msg.op) else s.reps[c.owner].log
  {
    StepKeeps(c, s, ev);
    match ev
    case Propose(msg) =>
    case Deliver(m) =>
      if m in s.net {
        if m.body.Append? { AppendDelivery(c, s, m); } else { ReplyDelivery(c, s, m); }
      }
  }
}
