/** Counting the votes for each log entry (EntryVoteRecord in core/smr.cpp). */
module EntryVotes {
  import Sets

  // `complete` holds the indices that reached a quorum; their voters are no longer recorded.
  datatype VoteState = VoteState(voters: map<nat, set<nat>>, complete: set<nat>) {
    function VotersOf(index: nat): set<nat> {
      if index in voters then voters[index] else {}
    }
  }

  const NO_VOTES := VoteState(map[], {})

  function Quorum(n: nat): nat { n / 2 + 1 }

  // More than half of n.
  predicate Majority(count: nat, n: nat)
  {
    2 * count > n
  }

  /** A quorum is the smallest majority. */
  lemma QuorumIsSmallestMajority(n: nat, count: nat)
    ensures count >= Quorum(n) <==> Majority(count, n)
  {
  }

  /** Any two majorities of n replicas have one in common. */
  lemma MajoritiesIntersect(n: nat, a: set<nat>, b: set<nat>) returns (common: nat)
    requires a <= Sets.Below(n) && b <= Sets.Below(n) && Majority(|a|, n) && Majority(|b|, n)
    ensures common in a && common in b
  {
    if a * b == {} {
      assert |a + b| == |a| + |b|;
      Sets.SubsetSize(a + b, Sets.Below(n));
      assert false;
    }
    common :| common in a * b;
  }

  datatype Voted = Voted(state: VoteState, reached: bool)

  function CastVote(v: VoteState, n: nat, id: nat, index: nat): Voted
  {
    if index in v.complete then Voted(v, false)
    else
      var now := v.VotersOf(index) + {id};
      if |now| == Quorum(n)
      then Voted(VoteState(v.voters[index := now], v.complete + {index}), true)
      else Voted(v.(voters := v.voters[index := now]), false)
  }

  lemma CastVoteEffect(v: VoteState, n: nat, id: nat, index: nat)
    ensures var v' := CastVote(v, n, id, index).state;
            && (forall i: nat :: i != index ==>
                  v'.VotersOf(i) == v.VotersOf(i) && (i in v'.complete <==> i in v.complete))
            && (index in v.complete ==> v' == v)
            && (index !in v.complete ==>
                  && v'.VotersOf(index) == v.VotersOf(index) + {id}
                  && (index in v'.complete <==> |v.VotersOf(index) + {id}| == Quorum(n)))
  {
  }

  // ---- The record itself ----

  function TrueIds(flags: seq<bool>): set<nat>
  {
    set i: nat | i < |flags| && flags[i]
  }

  lemma TrueIdsOfPrefix(flags: seq<bool>, k: nat)
    requires k < |flags|
    ensures TrueIds(flags[..k + 1]) == TrueIds(flags[..k]) + if flags[k] then {k} else {}
    ensures |TrueIds(flags[..k + 1])| == |TrueIds(flags[..k])| + if flags[k] then 1 else 0
  {
    assert TrueIds(flags[..k + 1]) == TrueIds(flags[..k]) + if flags[k] then {k} else {};
  }

  function VotersIn(records: map<nat, seq<bool>>): map<nat, set<nat>>
  {
    map index | index in records :: TrueIds(records[index])
  }

  lemma VotersAfter(records: map<nat, seq<bool>>, index: nat, before: seq<bool>, id: nat)
    requires id < |before|
    requires if index in records then before == records[index] else TrueIds(before) == {}
    ensures VotersIn(records[index := before[id := true]])
            == VotersIn(records)[index := VoteState(VotersIn(records), {}).VotersOf(index) + {id}]
  {
    var after := records[index := before[id := true]];
    assert TrueIds(before[id := true]) == TrueIds(before) + {id};
    assert VotersIn(after).Keys == VotersIn(records).Keys + {index};
    assert VotersIn(after)[index] == VoteState(VotersIn(records), {}).VotersOf(index) + {id};
  }

  class EntryVoteRecord {
    var records: map<nat, seq<bool>>
    var entryComplete: map<nat, bool>
    const quorum: nat
    const peerNum: nat

    ghost predicate Valid()
      reads this
    {
      quorum == Quorum(peerNum) && forall index <- records :: |records[index]| == peerNum
    }

    ghost function View(): VoteState
      reads this
    {
      VoteState(VotersIn(records), entryComplete.Keys)
    }

    constructor (num: nat)
      ensures Valid() && View() == NO_VOTES && peerNum == num
    {
      records, entryComplete := map[], map[];
      peerNum := num;
      quorum := num / 2 + 1;
    }

    /** Returns true on the call that first gathers a quorum for the index. */
    method Vote(id: nat, index: nat) returns (reached: bool)
      requires Valid() && id < peerNum
      modifies this
      ensures Valid()
      ensures Voted(View(), reached) == CastVote(old(View()), peerNum, id, index)
    {
      if index in entryComplete {
        return false;
      }
      var record := if index in records then records[index] else seq(peerNum, i => false);
      VotersAfter(records, index, record, id);
      records := records[index := record[id := true]];
      assert View().voters[index] == TrueIds(records[index]);

      var agreeCount := CountAgree(records[index]);
      if agreeCount == quorum {
        entryComplete := entryComplete[index := true];
        return true;
      }
      return false;
    }
  }

  method CountAgree(record: seq<bool>) returns (count: nat)
    ensures count == |TrueIds(record)|
  {
    count := 0;
    for k := 0 to |record|
      invariant count == |TrueIds(record[..k])|
    {
      TrueIdsOfPrefix(record, k);
      if record[k] {
        count := count + 1;
      }
    }
    assert record[..|record|] == record;
  }

  // ---- Any sequence of votes ----

  datatype Call = Call(id: nat, index: nat)

  // The record after the calls, in order, starting from an empty one.
  function Tally(n: nat, calls: seq<Call>): VoteState
  {
    if calls == [] then NO_VOTES
    else
      var last := calls[|calls| - 1];
      CastVote(Tally(n, calls[..|calls| - 1]), n, last.id, last.index).state
  }

  // What the k-th call returns.
  predicate Returns(n: nat, calls: seq<Call>, k: nat)
    requires k < |calls|
  {
    CastVote(Tally(n, calls[..k]), n, calls[k].id, calls[k].index).reached
  }

  // The distinct replicas that ever voted for the index: no mention of the record.
  function Distinct(calls: seq<Call>, index: nat): set<nat>
  {
    set k: nat | k < |calls| && calls[k].index == index :: calls[k].id
  }

  lemma DistinctStep(calls: seq<Call>, index: nat)
    requires calls != []
    ensures var last := calls[|calls| - 1];
            Distinct(calls, index)
            == Distinct(calls[..|calls| - 1], index) + if last.index == index then {last.id} else {}
  {
    var last := calls[|calls| - 1];
    forall id | id in Distinct(calls[..|calls| - 1], index) + if last.index == index then {last.id} else {}
      ensures id in Distinct(calls, index)
    {
      if id in Distinct(calls[..|calls| - 1], index) {
        var k: nat :| k < |calls| - 1 && calls[..|calls| - 1][k].index == index && calls[..|calls| - 1][k].id == id;
        assert calls[k].index == index && calls[k].id == id;
      }
    }
  }

  lemma {:induction false} TallyMeaning(n: nat, calls: seq<Call>, index: nat)
    ensures index in Tally(n, calls).complete <==> |Distinct(calls, index)| >= Quorum(n)
    ensures index !in Tally(n, calls).complete ==> Tally(n, calls).VotersOf(index) == Distinct(calls, index)
  {
    if calls == [] {
    } else {
      TallyMeaning(n, calls[..|calls| - 1], index);
      DistinctStep(calls, index);
    }
  }

  /** The k-th call returns true exactly when it is the one on which the distinct replicas that voted for
      its index become more than half of all. */
  lemma TrueOnFirstQuorum(n: nat, calls: seq<Call>, k: nat)
    requires k < |calls|
    ensures Returns(n, calls, k) <==>
            2 * |Distinct(calls[..k], calls[k].index)| <= n < 2 * |Distinct(calls[..k + 1], calls[k].index)|
  {
    TallyMeaning(n, calls[..k], calls[k].index);
    assert calls[..k + 1][..k] == calls[..k];
    DistinctStep(calls[..k + 1], calls[k].index);
  }

  lemma {:induction false} DistinctGrows(calls: seq<Call>, i: nat, j: nat, index: nat)
    requires i <= j <= |calls|
    ensures Distinct(calls[..i], index) <= Distinct(calls[..j], index)
    decreases j - i
  {
    if i == j {
    } else {
      assert calls[..i + 1][..i] == calls[..i];
      DistinctStep(calls[..i + 1], index);
      DistinctGrows(calls, i + 1, j, index);
    }
  }

  /** Over any sequence of votes an index is reported at most once, and it is reported if and only
      if more than half of the replicas voted for it. */
  lemma ReportedExactlyOnce(n: nat, calls: seq<Call>, index: nat)
    ensures forall i: nat, j: nat :: i < j < |calls| && calls[i].index == calls[j].index == index ==>
              !(Returns(n, calls, i) && Returns(n, calls, j))
    ensures (exists k: nat :: k < |calls| && calls[k].index == index && Returns(n, calls, k))
            <==> 2 * |Distinct(calls, index)| > n
  {
    forall i: nat, j: nat | i < j < |calls| && calls[i].index == calls[j].index == index && Returns(n, calls, i)
      ensures !Returns(n, calls, j)
    {
      TrueOnFirstQuorum(n, calls, i);
      TrueOnFirstQuorum(n, calls, j);
      DistinctGrows(calls, i + 1, j, index);
      Sets.SubsetSize(Distinct(calls[..i + 1], index), Distinct(calls[..j], index));
    }
    if k: nat :| k < |calls| && calls[k].index == index && Returns(n, calls, k) {
      TrueOnFirstQuorum(n, calls, k);
      DistinctGrows(calls, k + 1, |calls|, index);
      assert calls[..|calls|] == calls;
      Sets.SubsetSize(Distinct(calls[..k + 1], index), Distinct(calls, index));
    }
    if 2 * |Distinct(calls, index)| > n {
      var k := FirstQuorum(n, calls, index);
    }
  }

  lemma {:induction false} FirstQuorum(n: nat, calls: seq<Call>, index: nat) returns (k: nat)
    requires 2 * |Distinct(calls, index)| > n
    ensures k < |calls| && calls[k].index == index && Returns(n, calls, k)
  {
    assert calls != [];
    var front := calls[..|calls| - 1];
    DistinctStep(calls, index);
    if 2 * |Distinct(front, index)| > n {
      k := FirstQuorum(n, front, index);
      assert front[..k] == calls[..k];
    } else {
      k := |calls| - 1;
      TrueOnFirstQuorum(n, calls, k);
      assert calls[..k + 1] == calls;
    }
  }
}
