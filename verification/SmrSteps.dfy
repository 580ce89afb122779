/** What the handlers of one replica do for one key group (SMR in core/smr.cpp), as functions of the
    replica's state. */
module SmrSteps {
  import opened Messages
  import opened ReplicatedLog
  import opened EntryVotes

  datatype SmrState = SmrState(log: seq<Entry>, commits: nat, votes: VoteState)

  const FRESH := SmrState([], 0, NO_VOTES)

  // The state after a handler, the messages it sends and the entries it hands over to be applied.
  datatype Stepped = Stepped(state: SmrState, out: seq<GenericMessage>, applied: seq<Entry>)

  function Min(a: nat, b: nat): nat { if a < b then a else b }

  function Max(a: nat, b: nat): nat { if a < b then b else a }

  // Sender and epoch are left open: the enclosing replica stamps them.
  function Unstamped(to: nat, body: Body): GenericMessage
  {
    GenericMessage(to, 0, 0, body)
  }

  // ---- A client operation, at the owner ----

  function Broadcast(n: nat, me: nat, body: Body): seq<GenericMessage>
  {
    if n == 0 then []
    else Broadcast(n - 1, me, body) + if n - 1 == me then [] else [Unstamped(n - 1, body)]
  }

  // What a replica with this log and commit index tells its peers about its last entry.
  function AnnounceLast(log: seq<Entry>, commits: nat, gid: nat): Body
    requires log != []
  {
    var prev := |log| - 1;
    Append(EntryAt(log, prev).epoch, prev, commits, gid, [log[prev]])
  }

  function OperationStep(s: SmrState, n: nat, me: nat, gid: nat, msg: ClientMessage): Stepped
  {
    var log := Appended(s.log, msg.epoch, msg.op);
    Stepped(SmrState(log, s.commits, CastVote(s.votes, n, me, LastIndex(log)).state),
            Broadcast(n, me, AnnounceLast(log, s.commits, gid)), [])
  }

  // ---- An append message, at a peer ----

  datatype Verdict = Rejected | Accepted(log: seq<Entry>) | Aborted

  function AppendAll(log: seq<Entry>, entries: seq<Entry>): seq<Entry>
    decreases entries
  {
    if entries == [] then log
    else AppendAll(Appended(log, entries[0].epoch, entries[0].data), entries[1..])
  }

  function AppendCopies(log: seq<Entry>, e: Entry, count: nat): seq<Entry>
    decreases count
  {
    if count == 0 then log else AppendCopies(Appended(log, e.epoch, e.data), e, count - 1)
  }

  /** Entries that overlap the log.  At the first conflict the log is cut there and the conflicting
      entry is appended once for every entry still to come. */
  function Reconcile(log: seq<Entry>, entries: seq<Entry>): Verdict
  {
    if entries == [] then Accepted(log)
    else
      var e := entries[0];
      if e.index > |log| then Aborted
      else if EntryAt(log, e.index).epoch == e.epoch then Reconcile(log, entries[1..])
      else if e.index == 0 then Aborted
      else Accepted(AppendCopies(log[..e.index - 1], e, |entries|))
  }

  function Receive(log: seq<Entry>, prevTerm: nat, prevIndex: nat, entries: seq<Entry>): Verdict
  {
    if prevIndex > |log| || EntryAt(log, prevIndex).epoch != prevTerm then Rejected
    else if prevIndex == |log| then Accepted(AppendAll(log, entries))
    else Reconcile(log, entries)
  }

  predicate AppendAborts(s: SmrState, m: Body)
    requires m.Append?
  {
    Receive(s.log, m.prevTerm, m.prevIndex, m.entries).Aborted?
  }

  function ReplyTo(to: nat, success: bool, gid: nat, index: nat): GenericMessage
  {
    Unstamped(to, AppendReply(success, gid, index))
  }

  function AppendStep(s: SmrState, gid: nat, m: Body, from: nat): Stepped
    requires m.Append? && !AppendAborts(s, m)
  {
    match Receive(s.log, m.prevTerm, m.prevIndex, m.entries)
    case Accepted(log) =>
      Stepped(SmrState(log, Max(s.commits, Min(m.commit, LastIndex(log))), s.votes),
              [ReplyTo(from, true, gid, LastIndex(log))], [])
    case Rejected =>
      Stepped(s, [ReplyTo(from, false, gid, LastIndex(s.log))], [])
  }

  // ---- A reply, at the owner ----

  // Some index reaches a quorum although the log does not extend that far.
  predicate ReplyAborts(s: SmrState, n: nat, m: Body, from: nat)
    requires m.AppendReply?
  {
    m.success && CastVote(s.votes, n, from, m.index).reached && m.index > LastIndex(s.log)
  }

  function ReplyStep(s: SmrState, n: nat, m: Body, from: nat): Stepped
    requires m.AppendReply? && !ReplyAborts(s, n, m, from) && WellIndexed(s.log)
  {
    if !m.success then Stepped(s, [], [])
    else
      var vote := CastVote(s.votes, n, from, m.index);
      if vote.reached && m.index > s.commits
      then Stepped(SmrState(s.log, m.index, vote.state), [], s.log[s.commits..m.index])
      else Stepped(s.(votes := vote.state), [], [])
  }
}
