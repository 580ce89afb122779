/** The log one replica keeps for one key group (SMRLog in core/smr.cpp).  Positions are 0-based, entry
    indices 1-based; index 0 stands for a dummy entry of epoch 0 in front of the log.  Where the source
    calls ABORT_F the methods have a precondition. */
module ReplicatedLog {
  import opened Messages

  const DUMMY := Entry(0, 0, NO_OPERATION)

  // Position i holds index i+1.
  predicate WellIndexed(log: seq<Entry>)
  {
    forall i :: 0 <= i < |log| ==> log[i].index == i + 1
  }

  function LastIndex(log: seq<Entry>): nat
  {
    if log == [] then DUMMY.index else log[|log| - 1].index
  }

  function EntryAt(log: seq<Entry>, index: nat): Entry
    requires index <= |log|
  {
    if index == 0 then DUMMY else log[index - 1]
  }

  // An appended entry is given the next index, whatever index it carried.
  function Appended(log: seq<Entry>, epoch: nat, data: Operation): seq<Entry>
  {
    log + [Entry(epoch, LastIndex(log) + 1, data)]
  }

  class SMRLog {
    var entries: seq<Entry>
    var commits: nat

    constructor ()
      ensures entries == [] && commits == 0
    {
      entries, commits := [], 0;
    }

    method AppendAs(e: Entry, epoch: nat) returns (index: nat)
      modifies this`entries
      ensures entries == Appended(old(entries), epoch, e.data) && index == LastIndex(entries)
    {
      if |entries| == 0 {
        entries := entries + [Entry(epoch, 1, e.data)];
        return 1;
      }
      var lastIndex := entries[|entries| - 1].index;
      entries := entries + [Entry(epoch, lastIndex + 1, e.data)];
      return lastIndex + 1;
    }

    method Append(e: Entry) returns (index: nat)
      modifies this`entries
      ensures entries == Appended(old(entries), e.epoch, e.data) && index == LastIndex(entries)
    {
      index := AppendAs(e, e.epoch);
    }

    // Drops the entry of index t and everything after it.
    method Truncate(t: nat)
      requires 1 <= t <= |entries|
      modifies this`entries
      ensures entries == old(entries)[..t - 1]
    {
      while t - 1 < |entries|
        invariant t - 1 <= |entries| <= |old(entries)| && entries == old(entries)[..|entries|]
      {
        entries := entries[..|entries| - 1];
      }
    }

    method GetPartEntries(start: nat, end: nat) returns (part: seq<Entry>)
      requires 1 <= start <= end <= |entries|
      ensures part == entries[start - 1..end]
    {
      part := entries[start - 1..end];
    }

    method CommitTo(index: nat) returns (moved: bool)
      requires index <= LastIndex(entries)
      modifies this`commits
      ensures moved <==> index > old(commits)
      ensures commits == if moved then index else old(commits)
    {
      if index > commits {
        commits := index;
        return true;
      }
      return false;
    }
  }

  lemma LastIndexIsLength(log: seq<Entry>)
    requires WellIndexed(log)
    ensures LastIndex(log) == |log|
  {
  }
}
