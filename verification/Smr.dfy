/** One replica's part in replicating one key group (SMR in core/smr.cpp), computing the steps of
    SmrSteps in place. */
module Smr {
  import opened Messages
  import opened ReplicatedLog
  import opened EntryVotes
  import opened SmrSteps

  // Where handlers leave outgoing messages and entries to apply; shared by all groups of a replica.
  class SMRMessageCallback {
    var nextMsgs: seq<GenericMessage>
    var applyEntries: seq<Entry>

    constructor ()
      ensures nextMsgs == [] && applyEntries == []
    {
      nextMsgs, applyEntries := [], [];
    }
  }

  class SMR {
    const log: SMRLog
    const votes: EntryVoteRecord
    const cb: SMRMessageCallback
    const gid: nat
    const me: nat
    const n: nat
    var next: map<nat, nat>   // per peer, the index of the next entry to send

    ghost predicate Valid()
      reads this, log, votes
    {
      me < n && votes.peerNum == n && votes.Valid() && WellIndexed(log.entries)
    }

    ghost function State(): SmrState
      reads log, votes
    {
      SmrState(log.entries, log.commits, votes.View())
    }

    constructor (me: nat, n: nat, gid: nat, cb: SMRMessageCallback)
      requires me < n
      ensures Valid() && State() == FRESH && fresh(log) && fresh(votes)
      ensures this.me == me && this.n == n && this.gid == gid && this.cb == cb
    {
      this.me, this.n, this.gid, this.cb := me, n, gid, cb;
      log := new SMRLog();
      votes := new EntryVoteRecord(n);
      next := map[];
    }

    method HandleOperation(msg: ClientMessage) returns (lastIdx: nat)
      requires Valid()
      modifies this, log, votes, cb`nextMsgs
      ensures Valid() && lastIdx == |log.entries|
      ensures var r := OperationStep(old(State()), n, me, gid, msg);
              State() == r.state && cb.nextMsgs == old(cb.nextMsgs) + r.out
    {
      lastIdx := log.AppendAs(Entry(0, 0, msg.op), msg.epoch);
      var reached := votes.Vote(me, lastIdx);
      next := next[me := lastIdx + 1];
      SendToPeers(lastIdx);
    }

    // Sends every peer the entries from lastIdx on: only the last one.
    method SendToPeers(lastIdx: nat)
      requires Valid() && lastIdx == |log.entries| >= 1
      modifies this`next, cb`nextMsgs
      ensures cb.nextMsgs == old(cb.nextMsgs) + Broadcast(n, me, AnnounceLast(log.entries, log.commits, gid))
    {
      for rid := 0 to n
        invariant cb.nextMsgs == old(cb.nextMsgs) + Broadcast(rid, me, AnnounceLast(log.entries, log.commits, gid))
      {
        if rid != me {
          next := next[rid := lastIdx];
          SendAppendEntries(rid);
          assert log.entries[lastIdx - 1..] == [log.entries[lastIdx - 1]];
        }
      }
    }

    // Sends everything from next[to] on, after naming the entry before it.
    method SendAppendEntries(to: nat)
      requires Valid() && to in next && 1 <= next[to] <= |log.entries|
      modifies cb`nextMsgs
      ensures var prev := next[to] - 1;
              cb.nextMsgs == old(cb.nextMsgs)
                + [Unstamped(to, Append(EntryAt(log.entries, prev).epoch, prev, log.commits, gid, log.entries[prev..]))]
    {
      var prevIdx := next[to] - 1;
      var prevTerm := EntryAt(log.entries, prevIdx).epoch;
      var tail := log.GetPartEntries(next[to], LastIndex(log.entries));
      assert tail == log.entries[prevIdx..];
      cb.nextMsgs := cb.nextMsgs + [Unstamped(to, Append(prevTerm, prevIdx, log.commits, gid, tail))];
    }

    // Whether the previous entry matches, and whether the log goes on beyond it.
    method CheckSafety(prevTerm: nat, prevIndex: nat) returns (safe: bool, stale: bool)
      requires Valid()
      ensures safe <==> prevIndex <= |log.entries| && EntryAt(log.entries, prevIndex).epoch == prevTerm
      ensures stale <==> safe && prevIndex < |log.entries|
    {
      var lastIndex := LastIndex(log.entries);
      if prevIndex < lastIndex {
        safe := prevTerm == EntryAt(log.entries, prevIndex).epoch;
        stale := safe;
      } else if prevIndex == lastIndex {
        safe := prevTerm == EntryAt(log.entries, lastIndex).epoch;
        stale := false;
      } else {
        safe, stale := false, false;
      }
    }

    method HandleStaleEntries(entries: seq<Entry>)
      requires Valid() && !Reconcile(log.entries, entries).Aborted?
      modifies log`entries
      ensures Valid() && Accepted(log.entries) == Reconcile(old(log.entries), entries)
    {
      var i := 0;
      while i < |entries|
        invariant 0 <= i <= |entries| && log.entries == old(log.entries)
        invariant Reconcile(log.entries, entries[i..]) == Reconcile(old(log.entries), entries)
      {
        var e := EntryAt(log.entries, entries[i].index);
        if e.epoch != entries[i].epoch {
          var conflicting := entries[i];
          log.Truncate(conflicting.index);
          ghost var result := Reconcile(old(log.entries), entries).log;
          while i < |entries|
            invariant i <= |entries| && WellIndexed(log.entries)
            invariant AppendCopies(log.entries, conflicting, |entries| - i) == result
          {
            var _ := log.Append(conflicting);
            i := i + 1;
          }
          break;
        }
        i := i + 1;
      }
    }

    method HandleAppendEntries(m: Body, from: nat)
      requires Valid() && m.Append? && !AppendAborts(State(), m)
      modifies log, cb`nextMsgs
      ensures Valid()
      ensures var r := AppendStep(old(State()), gid, m, from);
              State() == r.state && cb.nextMsgs == old(cb.nextMsgs) + r.out
    {
      var safe, stale := CheckSafety(m.prevTerm, m.prevIndex);
      if safe {
        if stale {
          HandleStaleEntries(m.entries);
        } else {
          for i := 0 to |m.entries|
            invariant WellIndexed(log.entries) && log.commits == old(log.commits) && cb.nextMsgs == old(cb.nextMsgs)
            invariant AppendAll(log.entries, m.entries[i..]) == AppendAll(old(log.entries), m.entries)
          {
            var _ := log.Append(m.entries[i]);
          }
        }
        if m.commit > log.commits {
          var _ := log.CommitTo(Min(m.commit, LastIndex(log.entries)));
        }
      }
      cb.nextMsgs := cb.nextMsgs + [ReplyTo(from, safe, gid, LastIndex(log.entries))];
    }

    method HandleAppendEntriesReply(m: Body, from: nat)
      requires Valid() && m.AppendReply? && from < n && !ReplyAborts(State(), n, m, from)
      modifies log, votes, cb`applyEntries
      ensures Valid()
      ensures var r := ReplyStep(old(State()), n, m, from);
              State() == r.state && cb.applyEntries == old(cb.applyEntries) + r.applied
    {
      if !m.success {
        return;
      }
      var reached := votes.Vote(from, m.index);
      if reached {
        var oldCommit := log.commits;
        var ok := log.CommitTo(m.index);
        if ok {
          var batch := log.GetPartEntries(oldCommit + 1, m.index);
          cb.applyEntries := cb.applyEntries + batch;
        }
      }
    }
  }
}
