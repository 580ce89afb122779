/** What a peer does with an append message, stated without the steps that do it
    (SMR::check_safety, handle_stale_entries and handle_append_entries in core/smr.cpp). */
module ReceiverRule {
  import opened Messages
  import opened ReplicatedLog
  import opened SmrSteps

  predicate PrevMatches(log: seq<Entry>, prevTerm: nat, prevIndex: nat)
  {
    prevIndex <= |log| && EntryAt(log, prevIndex).epoch == prevTerm
  }

  // ---- Messages with one entry, the only kind that is ever sent ----

  function Placed(e: Entry, position: nat): Entry
  {
    Entry(e.epoch, position + 1, e.data)
  }

  // Keep a log that agrees at the entry's position; otherwise cut there and put the entry in place.
  function AfterOne(log: seq<Entry>, prevIndex: nat, e: Entry): seq<Entry>
    requires prevIndex <= |log|
  {
    if prevIndex < |log| && log[prevIndex].epoch == e.epoch then log
    else log[..prevIndex] + [Placed(e, prevIndex)]
  }

  lemma ReconcileOne(log: seq<Entry>, e: Entry)
    requires WellIndexed(log)
    ensures Reconcile(log, [e])
            == if e.index > |log| then Aborted
               else if EntryAt(log, e.index).epoch == e.epoch then Accepted(log)
               else if e.index == 0 then Aborted
               else Accepted(Appended(log[..e.index - 1], e.epoch, e.data))
  {
    assert Reconcile(log, [e][1..]) == Accepted(log);
    if 0 < e.index <= |log| {
      var cut := log[..e.index - 1];
      assert AppendCopies(cut, e, 1) == AppendCopies(Appended(cut, e.epoch, e.data), e, 0);
    }
  }

  // On the path of a message that overlaps the log: an entry past the end, or a conflicting entry of index 0.
  predicate OutOfPlace(log: seq<Entry>, e: Entry)
  {
    e.index > |log| || (e.index == 0 && e.epoch != 0)
  }

  /** The receiver rule, for every log and every one-entry message: rejected exactly when the previous entry
      is missing or has another epoch; put at the end when nothing follows that entry; otherwise it is the
      entry's own index, not prevIndex, that is compared, cut at and filled.  Indices stay consecutive. */
  lemma OneEntryRule(log: seq<Entry>, prevTerm: nat, prevIndex: nat, e: Entry)
    requires WellIndexed(log)
    ensures Receive(log, prevTerm, prevIndex, [e])
            == if !PrevMatches(log, prevTerm, prevIndex) then Rejected
               else if prevIndex == |log| then Accepted(log + [Placed(e, |log|)])
               else if OutOfPlace(log, e) then Aborted
               else if EntryAt(log, e.index).epoch == e.epoch then Accepted(log)
               else Accepted(log[..e.index - 1] + [Placed(e, e.index - 1)])
    ensures Receive(log, prevTerm, prevIndex, [e]).Accepted? ==>
              WellIndexed(Receive(log, prevTerm, prevIndex, [e]).log)
  {
    if prevIndex == |log| {
      assert AppendAll(log, [e]) == AppendAll(Appended(log, e.epoch, e.data), [e][1..]);
    } else {
      ReconcileOne(log, e);
    }
  }

  // The stale path found an entry with the epoch of e both where e says it is and after prevIndex.
  predicate AgreesElsewhere(log: seq<Entry>, prevIndex: nat, e: Entry)
  {
    && prevIndex < |log| && e.index <= |log|
    && EntryAt(log, e.index).epoch == e.epoch && log[prevIndex].epoch == e.epoch
  }

  /** A one-entry message that follows an entry of the log is handled as the position after prevIndex demands
      if and only if it extends the log, or names that position, or happens to agree at both positions. */
  lemma OneEntryAsIntended(log: seq<Entry>, prevTerm: nat, prevIndex: nat, e: Entry)
    requires WellIndexed(log) && PrevMatches(log, prevTerm, prevIndex)
    ensures Receive(log, prevTerm, prevIndex, [e]) == Accepted(AfterOne(log, prevIndex, e))
            <==> prevIndex == |log| || e.index == prevIndex + 1 || AgreesElsewhere(log, prevIndex, e)
  {
    OneEntryRule(log, prevTerm, prevIndex, e);
    var after := AfterOne(log, prevIndex, e);
    if prevIndex == |log| {
      assert log[..|log|] == log;
    } else if 0 < e.index <= |log| && e.index != prevIndex + 1 && EntryAt(log, e.index).epoch != e.epoch {
      assert |log[..e.index - 1] + [Placed(e, e.index - 1)]| == e.index;
      if after == log && e.index == |log| {
        assert (log[..e.index - 1] + [Placed(e, e.index - 1)])[e.index - 1].epoch != log[e.index - 1].epoch;
      }
    }
    if log[..prevIndex] + [Placed(e, prevIndex)] == log {
      assert (log[..prevIndex] + [Placed(e, prevIndex)])[prevIndex].epoch == log[prevIndex].epoch;
    }
  }

  /** Exactly which one-entry messages run into an abort. */
  lemma OneEntryAborts(log: seq<Entry>, prevTerm: nat, prevIndex: nat, e: Entry)
    requires WellIndexed(log)
    ensures Receive(log, prevTerm, prevIndex, [e]).Aborted?
            <==> PrevMatches(log, prevTerm, prevIndex) && prevIndex < |log| && OutOfPlace(log, e)
  {
    OneEntryRule(log, prevTerm, prevIndex, e);
  }

  function Plain(epoch: nat, index: nat): Entry
  {
    Entry(epoch, index, NO_OPERATION)
  }

  /** A message whose entry names an earlier position than the one after prevIndex: accepted, and the three
      entries the log had, two of them confirmed by the message, are gone. */
  lemma EntryBeforePrevDropsLog()
    ensures var log := [Plain(1, 1), Plain(1, 2), Plain(1, 3)];
            && WellIndexed(log) && PrevMatches(log, 1, 2)
            && Receive(log, 1, 2, [Plain(2, 1)]) == Accepted([Plain(2, 1)])
            && AfterOne(log, 2, Plain(2, 1)) == [Plain(1, 1), Plain(1, 2), Plain(2, 3)]
  {
    var log := [Plain(1, 1), Plain(1, 2), Plain(1, 3)];
    OneEntryRule(log, 1, 2, Plain(2, 1));
    assert log[..0] == [] && log[..2] == [Plain(1, 1), Plain(1, 2)];
  }

  /** Whatever the message, one reply goes out, to its sender: success exactly when the previous entry matched,
      with the index the log then ends at.  Nothing is applied and no vote is recorded. */
  lemma ReplySaysOutcome(s: SmrState, gid: nat, m: Body, from: nat)
    requires m.Append? && !AppendAborts(s, m)
    ensures var step := AppendStep(s, gid, m, from);
            && |step.out| == 1 && step.out[0].to == from
            && step.out[0].body
               == AppendReply(PrevMatches(s.log, m.prevTerm, m.prevIndex), gid, LastIndex(step.state.log))
            && step.applied == [] && step.state.votes == s.votes
  {
    if PrevMatches(s.log, m.prevTerm, m.prevIndex) {
      NotRejected(s.log, m.prevTerm, m.prevIndex, m.entries);
    }
  }

  lemma {:induction false} NotRejected(log: seq<Entry>, prevTerm: nat, prevIndex: nat, entries: seq<Entry>)
    requires PrevMatches(log, prevTerm, prevIndex)
    ensures !Receive(log, prevTerm, prevIndex, entries).Rejected?
  {
    if prevIndex < |log| {
      ReconcileNeverRejects(log, entries);
    }
  }

  lemma {:induction false} ReconcileNeverRejects(log: seq<Entry>, entries: seq<Entry>)
    ensures !Reconcile(log, entries).Rejected?
  {
    if entries == [] {
    } else {
      ReconcileNeverRejects(log, entries[1..]);
    }
  }

  // The message makes the handler cut the log at or below the commit index.
  predicate CutsCommitted(s: SmrState, prevTerm: nat, prevIndex: nat, e: Entry)
  {
    && PrevMatches(s.log, prevTerm, prevIndex) && prevIndex < |s.log|
    && 1 <= e.index <= s.commits && e.index <= |s.log| && EntryAt(s.log, e.index).epoch != e.epoch
  }

  /** The commit index follows the message's as far as the log goes and never falls back; and the committed entries
      survive a one-entry message if and only if it does not conflict with one of them on the overlapping path. */
  lemma OneEntryCommit(s: SmrState, gid: nat, m: Body, from: nat)
    requires WellIndexed(s.log) && s.commits <= |s.log|
    requires m.Append? && |m.entries| == 1 && !AppendAborts(s, m)
    ensures var s' := AppendStep(s, gid, m, from).state;
            (s.commits <= |s'.log| && s'.log[..s.commits] == s.log[..s.commits])
            <==> !CutsCommitted(s, m.prevTerm, m.prevIndex, m.entries[0])
    ensures var s' := AppendStep(s, gid, m, from).state;
            PrevMatches(s.log, m.prevTerm, m.prevIndex) ==>
              s'.commits == if m.commit <= s.commits then s.commits
                            else if m.commit <= |s'.log| then m.commit
                            else if s.commits <= |s'.log| then |s'.log| else s.commits
    ensures !PrevMatches(s.log, m.prevTerm, m.prevIndex) ==> AppendStep(s, gid, m, from).state == s
  {
    var e := m.entries[0];
    assert m.entries == [e];
    OneEntryRule(s.log, m.prevTerm, m.prevIndex, e);
    var s' := AppendStep(s, gid, m, from).state;
    if CutsCommitted(s, m.prevTerm, m.prevIndex, e) && s.commits <= |s'.log| {
      assert s'.log[..s.commits][e.index - 1] != s.log[..s.commits][e.index - 1];
    }
  }

  // ---- Messages with several entries ----

  predicate Consecutive(entries: seq<Entry>, prevIndex: nat)
  {
    forall i :: 0 <= i < |entries| ==> entries[i].index == prevIndex + 1 + i
  }

  // Number of leading entries that agree with the log at their position.
  function Agreeing(log: seq<Entry>, prevIndex: nat, entries: seq<Entry>): (k: nat)
    requires prevIndex <= |log|
    decreases entries
    ensures k <= |entries| && prevIndex + k <= |log|
    ensures forall i :: 0 <= i < k ==> log[prevIndex + i].epoch == entries[i].epoch
    ensures k < |entries| && prevIndex + k < |log| ==> log[prevIndex + k].epoch != entries[k].epoch
  {
    if entries != [] && prevIndex < |log| && log[prevIndex].epoch == entries[0].epoch
    then 1 + Agreeing(log, prevIndex + 1, entries[1..]) else 0
  }

  // What replication needs: keep what agrees, cut at the first conflict, append the rest in order.
  function Intended(log: seq<Entry>, prevIndex: nat, entries: seq<Entry>): seq<Entry>
    requires prevIndex <= |log|
  {
    var k := Agreeing(log, prevIndex, entries);
    if k == |entries| then log else log[..prevIndex + k] + entries[k..]
  }

  predicate Uniform(entries: seq<Entry>)
  {
    forall i :: 0 <= i < |entries| ==> entries[i].epoch == entries[0].epoch && entries[i].data == entries[0].data
  }

  /** With several entries the handler does what is intended if and only if the message only extends
      the log, or agrees with it throughout, or conflicts inside it with entries that from there on all
      look alike.  Otherwise it aborts or repeats the first conflicting entry. */
  lemma {:induction false} ManyEntriesExactly(log: seq<Entry>, prevTerm: nat, prevIndex: nat, entries: seq<Entry>)
    requires WellIndexed(log) && Consecutive(entries, prevIndex)
    requires PrevMatches(log, prevTerm, prevIndex)
    ensures var k := Agreeing(log, prevIndex, entries);
            Receive(log, prevTerm, prevIndex, entries) == Accepted(Intended(log, prevIndex, entries))
            <==> prevIndex == |log| || k == |entries| || (prevIndex + k < |log| && Uniform(entries[k..]))
  {
    if prevIndex == |log| {
      ExtendingIsIntended(log, prevTerm, entries);
    } else {
      OverlappingExactly(log, prevIndex, entries);
    }
  }

  /** A message of two entries that conflicts with the last entry of a log of two and is accepted: the second
      entry, of another epoch, is lost and the first is there twice. */
  lemma SecondEntryLost()
    ensures var log, entries := [Plain(1, 1), Plain(1, 2)], [Plain(2, 2), Plain(3, 3)];
            && WellIndexed(log) && Consecutive(entries, 1) && PrevMatches(log, 1, 1)
            && Receive(log, 1, 1, entries) == Accepted([Plain(1, 1), Plain(2, 2), Plain(2, 3)])
            && Intended(log, 1, entries) == [Plain(1, 1), Plain(2, 2), Plain(3, 3)]
  {
    var log, entries := [Plain(1, 1), Plain(1, 2)], [Plain(2, 2), Plain(3, 3)];
    var kept := log[..1];
    assert kept == [Plain(1, 1)] && entries[0..] == entries;
    CopiesInOrder(kept, entries[0], 2);
    assert kept + Copies(entries[0], 1, 2) == [Plain(1, 1), Plain(2, 2), Plain(2, 3)];
  }

  lemma ExtendingIsIntended(log: seq<Entry>, prevTerm: nat, entries: seq<Entry>)
    requires WellIndexed(log) && Consecutive(entries, |log|) && PrevMatches(log, prevTerm, |log|)
    ensures Receive(log, prevTerm, |log|, entries) == Accepted(Intended(log, |log|, entries))
  {
    AppendAllInOrder(log, entries);
    assert log[..|log|] == log && entries[0..] == entries;
  }

  lemma {:induction false} OverlappingExactly(log: seq<Entry>, prevIndex: nat, entries: seq<Entry>)
    requires WellIndexed(log) && Consecutive(entries, prevIndex) && prevIndex < |log|
    ensures var k := Agreeing(log, prevIndex, entries);
            Reconcile(log, entries) == Accepted(Intended(log, prevIndex, entries))
            <==> k == |entries| || (prevIndex + k < |log| && Uniform(entries[k..]))
  {
    var k := Agreeing(log, prevIndex, entries);
    var reconciled := Reconcile(log, entries);
    ReconcileFromConflict(log, prevIndex, entries);
    if k == |entries| {
    } else if prevIndex + k == |log| {
    } else {
      var kept, rest := log[..prevIndex + k], entries[k..];
      TailOfMessage(log, prevIndex, entries, k);
      CutAndCopy(kept, rest, prevIndex + k);
      assert reconciled == Accepted(AppendCopies(kept, rest[0], |rest|));
      assert Intended(log, prevIndex, entries) == kept + rest;
    }
  }

  // What is kept before a conflict, and the entries from there on.
  lemma TailOfMessage(log: seq<Entry>, prevIndex: nat, entries: seq<Entry>, k: nat)
    requires WellIndexed(log) && Consecutive(entries, prevIndex) && k < |entries| && prevIndex + k <= |log|
    ensures WellIndexed(log[..prevIndex + k]) && Consecutive(entries[k..], prevIndex + k)
    ensures |entries[k..]| == |entries| - k && entries[k..][0] == entries[k]
  {
  }

  lemma {:induction false} CutAndCopy(kept: seq<Entry>, rest: seq<Entry>, position: nat)
    requires WellIndexed(kept) && |kept| == position && rest != [] && Consecutive(rest, position)
    ensures AppendCopies(kept, rest[0], |rest|) == kept + rest <==> Uniform(rest)
  {
    CopiesInOrder(kept, rest[0], |rest|);
    CopiesAre(kept, rest, position);
  }

  lemma {:induction false} AppendAllInOrder(log: seq<Entry>, entries: seq<Entry>)
    requires WellIndexed(log) && Consecutive(entries, |log|)
    ensures AppendAll(log, entries) == log + entries
    decreases entries
  {
    if entries == [] {
      assert log + entries == log;
    } else {
      var next := Appended(log, entries[0].epoch, entries[0].data);
      AppendAllInOrder(next, entries[1..]);
      assert next + entries[1..] == log + entries;
    }
  }

  lemma {:induction false} ReconcileFromConflict(log: seq<Entry>, prevIndex: nat, entries: seq<Entry>)
    requires WellIndexed(log) && prevIndex <= |log| && Consecutive(entries, prevIndex)
    ensures var k := Agreeing(log, prevIndex, entries);
            Reconcile(log, entries)
            == if k == |entries| then Accepted(log)
               else if prevIndex + k == |log| then Aborted
               else Accepted(AppendCopies(log[..prevIndex + k], entries[k], |entries| - k))
    decreases entries
  {
    if entries == [] || prevIndex == |log| || log[prevIndex].epoch != entries[0].epoch {
    } else {
      ReconcileFromConflict(log, prevIndex + 1, entries[1..]);
    }
  }

  function Copies(e: Entry, position: nat, count: nat): seq<Entry>
  {
    seq(count, i requires 0 <= i < count => Placed(e, position + i))
  }

  lemma OneMoreCopy(e: Entry, position: nat, count: nat)
    ensures Copies(e, position, count + 1) == [Placed(e, position)] + Copies(e, position + 1, count)
  {
  }

  lemma {:induction false} CopiesInOrder(log: seq<Entry>, e: Entry, count: nat)
    requires WellIndexed(log)
    ensures AppendCopies(log, e, count) == log + Copies(e, |log|, count)
    decreases count
  {
    if count == 0 {
      assert log + Copies(e, |log|, 0) == log;
    } else {
      CopiesInOrder(Appended(log, e.epoch, e.data), e, count - 1);
      OneMoreCopy(e, |log|, count - 1);
      assert Appended(log, e.epoch, e.data) == log + [Placed(e, |log|)];
      assert log + [Placed(e, |log|)] + Copies(e, |log| + 1, count - 1)
          == log + ([Placed(e, |log|)] + Copies(e, |log| + 1, count - 1));
    }
  }

  lemma CopiesAre(kept: seq<Entry>, rest: seq<Entry>, position: nat)
    requires rest != [] && Consecutive(rest, position)
    ensures kept + Copies(rest[0], position, |rest|) == kept + rest <==> Uniform(rest)
  {
    var copies := Copies(rest[0], position, |rest|);
    assert forall i :: 0 <= i < |rest| ==> copies[i] == Placed(rest[0], position + i);
    assert forall i :: 0 <= i < |rest| ==> rest[i] == Placed(rest[i], position + i);
    if Uniform(rest) {
      assert copies == rest;
    }
    if kept + copies == kept + rest {
      assert copies == (kept + copies)[|kept|..] == (kept + rest)[|kept|..] == rest;
    }
  }
}
