# Morphling: a verified model

Morphling is a replicated key/value store. The 64-bit key hash picks one of 256 key groups; every group has
its own replicated log on every replica and one fixed owner that appends client operations, sends them to its
peers, counts their votes, commits at a majority and applies. Clients route each operation to the owner with
the help of *guidance*, a packed description of who owns which slice of the key space.

The project models, and proves properties of:

- **Routing** (`Routing.dfy`): key positions, packed guidance words, the initial partition, `map_node_id`.
- **One replica of one group** (`ReplicatedLog.dfy`, `EntryVotes.dfy`, `SmrSteps.dfy`, `Smr.dfy`,
  `ReceiverRule.dfy`): the log, the vote record and the protocol object are classes whose methods refine pure
  step functions; the receiver rule is then stated without the steps.
- **One group on n replicas** (`Replication.dfy`, `ReplicationSafety.dfy`, `CommitLaws.dfy`): a transition system over
  a network that loses, duplicates and reorders messages; its inductive invariant, the safety results, and exactly
  when commit indices move, for every run.
- **The same group over FIFO channels** (`Convergence.dfy`): a refinement of the lossy system, used for
  convergence.
- **A whole replica and a whole cluster** (`MorphlingSteps.dfy`, `Morphling.dfy`, `Cluster.dfy`): 256 groups,
  outbox, store and waiting clients; the cluster is proved to refine the one-group system for each group.
  `ReplicaLaws.dfy` has a replica's rarer paths.
  `FifoCluster.dfy` puts it on one channel per pair of replicas, shared by all groups.
- **Client-visible results** (`KeyValue.dfy`, `Linearizability.dfy`, `Replies.dfy`, `SentReplies.dfy`,
  `Collision.dfy`): what reads return, each key as a register, what is written to whom over a whole run.
- **The guidance-quorum client** (`GuidanceClient.dfy`, and its runs in `ClientRuns.dfy`), **wire framing**
  (`Framing.dfy`), **the bump allocator** (`Arena.dfy`) and **the nested request server** (`NestedServer.dfy`).

`Sets.dfy`, `Messages.dfy` and `Wrappers.dfy` hold what they share. Where the source calls `ABORT_F`, indexes a vector or
dereferences a looked-up pointer, methods have a precondition and transition systems have a failure state; that
the failure state is never reached is a theorem. `dafny verify dfyconfig.toml` checks everything.

Assumptions that a theorem needs are its hypotheses: operations reach the owner of their key (`AllRouted`), and, for
the store, that message and operation carry the same key hash (`KeysAgree`). The first is what clients do:
`SentReplies.OnlyInitialGuidance` shows that all guidance replicas send is the initial one, and
`ClientRuns.OperationsReachTheOwner` that a client to which only that arrives sends every operation to its owner. The
number of replicas is a parameter n; the source fixes it at 3 when it is built.

## Where the code falls short of the intention

Each is stated as an exact condition, most of them with an input or a run that fails.

- With one replica the self-vote completes each entry but nothing commits: `QuiescentMeansConverged`,
  `QuiescentClusterConverged`.
- A one-entry append message is compared and cut at the index the entry carries, not after the position the message
  names: `OneEntryAsIntended`, `EntryBeforePrevDropsLog`. The code only sends messages in which the two agree.
- Append messages with several entries, which the code never sends, are handled as intended only in some cases:
  `ManyEntriesExactly`, `SecondEntryLost`.
- A read may count guidance left over from before it was sent: `LateGuidanceCountsExactlyWhen`,
  `EarlyFinishInRunExactlyWhen`. The first read of every client does, because the set-up leaves all slots filled:
  `FirstReadConfirmsItself`.
- Waiting clients are registered by log index alone, so with writes to two groups a client can be sent the reply to
  another client's operation: `AnsweredOnCreatorExactlyWhen`, `TwoGroupsCollide`.
- More replicas than key positions would overlap: `UniqueOwnership`.
- Payloads of 2^24 bytes or more do not survive framing: `FrameReadBack`.
- The nested server has 1,000,000 flags and no check: `NoFailureWithinLimit`, `FailureBeyondLimit`,
  `FailureIsReachable`.

## Model

| member | source | states |
|---|---|---|
| Routing.MaskPicksDigit | core/morphling.cpp:5-7 | a key position, computed by mask and shift, is the second base-256 digit of the 64-bit hash |
| Routing.NodeStatus.SetPos | core/guidance.h:43-47 | both positions read back as written and the flags survive |
| Routing.NodeStatus.SetAlive | core/guidance.h:48-51 | the node reads as alive, with flags 1, and its positions survive |
| Routing.Guidance.SetClusterSize | core/guidance.h:90-93 | the size reads back, the number alive, epoch and nodes survive |
| Routing.Guidance.SetAliveNum | core/guidance.h:94-97 | the number reads back, the cluster size, epoch and nodes survive |
| Routing.Guidance.NodeFrom | core/guidance.h:98-105 | the first node from `id` on whose circular interval holds the position; -1 exactly when none does |
| Routing.Guidance.MapNodeId | core/guidance.h:98-105 | the loop finds that node, starting at 0 |
| Routing.SliceBounds | core/morphling.cpp:71-76 | slices are non-empty, end within the key space, and all have size K/n or K/n + 1 |
| Routing.SlicesSurvivePacking | core/guidance.h:34-73 | the packed interval test of node i holds exactly for the positions of its slice [iK/n, (i+1)K/n) |
| Routing.CircularInterval | core/guidance.h:55-73 | a live node leaves out the positions outside its interval, which may wrap; a dead one holds none |
| Routing.OwnerOfPos | core/morphling.cpp:58-77 | the slices tile the key space: every position lies in one slice, whose node is the only owner and the one looked up |
| Routing.InitialCounts | core/morphling.cpp:58-77 | epoch 1, a live node for each replica, and both counts are n as far as a byte can hold it |
| Routing.UniqueOwnership | core/morphling.cpp:58-77 | every position has exactly one owner if and only if there are no more replicas than positions |
| Routing.EveryKeyHasOneOwner | core/guidance.h:98-105 | for every 64-bit key the lookup is never -1 and names the single owner |
| EntryVotes.EntryVoteRecord.constructor | core/smr.cpp:110-113 | an empty record for n replicas with quorum n/2+1 |
| EntryVotes.EntryVoteRecord.Vote | core/smr.cpp:115-141 | the per-replica flags and the complete index map change, and the result is, as casting one vote into sets of voters |
| EntryVotes.CountAgree | core/smr.cpp:129-134 | the loop counts the set of replicas whose flag is set |
| EntryVotes.QuorumIsSmallestMajority | core/smr.cpp:110-113 | n/2+1 is the least number that is more than half of n |
| EntryVotes.MajoritiesIntersect | core/smr.cpp:110-113 | any two majorities of the replicas have one in common |
| EntryVotes.TrueOnFirstQuorum | core/smr.cpp:115-141 | over any sequence of votes, a call returns true exactly when with it the distinct voters for its index become more than half of the replicas |
| EntryVotes.ReportedExactlyOnce | core/smr.h:91-92 | an index is reported at most once, and is reported if and only if more than half of the replicas voted for it |
| ReplicatedLog.SMRLog.AppendAs | core/smr.cpp:30-45 | the entry goes to the end with the next index and the given epoch, whatever it carried |
| ReplicatedLog.SMRLog.Append | core/smr.cpp:47-49 | the same with the entry's own epoch |
| ReplicatedLog.SMRLog.Truncate | core/smr.cpp:51-57 | the loop leaves exactly the entries before index t |
| ReplicatedLog.SMRLog.GetPartEntries | core/smr.cpp:76-84 | entries start..end, both included |
| ReplicatedLog.SMRLog.CommitTo | core/smr.cpp:86-96 | the commit index moves only forward, and the result says whether it moved |
| Smr.SMR.constructor | core/smr.cpp:145-172 | a fresh log and vote record |
| Smr.SMR.HandleOperation | core/smr.cpp:211-224 | appends, votes for itself and sends every other replica one message that carries only the last entry, although the tail from `next` on is what it slices |
| Smr.SMR.SendToPeers | core/smr.cpp:217-222 | the loop sends each replica but this one, in order, the announcement of the last entry |
| Smr.SMR.SendAppendEntries | core/smr.cpp:270-281 | one message: the entry before `next` named by index and epoch, the commit index, the log from `next` on |
| Smr.SMR.CheckSafety | core/smr.cpp:174-192 | safe if and only if the previous position exists with that epoch; stale if and only if moreover the log goes on |
| Smr.SMR.HandleStaleEntries | core/smr.cpp:194-209 | the two nested loops compute the recursive reconciliation, its repeated entry included |
| Smr.SMR.HandleAppendEntries | core/smr.cpp:226-250 | log, commit index and reply are those of the peer's step |
| Smr.SMR.HandleAppendEntriesReply | core/smr.cpp:252-268 | vote, commit index and the batch handed over are those of the owner's step |
| ReceiverRule.OneEntryRule | core/smr.cpp:174-250 | for any well-indexed log and any one-entry message: rejected if and only if the previous position is missing or its epoch differs; else put at the end when nothing follows; else aborted, kept, or cut and filled at the index the entry carries; position i still holds index i+1 |
| ReceiverRule.OneEntryAsIntended | core/smr.cpp:194-209 | exactly when that is what the position after the previous one demands |
| ReceiverRule.EntryBeforePrevDropsLog | core/smr.cpp:196-203 | a message that is accepted and drops entries it has itself confirmed |
| ReceiverRule.OneEntryAborts | core/smr.cpp:59-69 | exactly which one-entry messages run into an abort |
| ReceiverRule.OneEntryCommit | core/smr.cpp:242-246 | for any one-entry message, the commit index follows the message's as far as the log goes and never falls back, and committed entries survive if and only if the message does not conflict with one where its entry says it is |
| ReceiverRule.ReplySaysOutcome | core/smr.cpp:226-250 | for any message one reply goes to its sender: success if and only if the previous entry matched, with the index the log then ends at |
| ReceiverRule.ManyEntriesExactly | core/smr.cpp:194-209 | exactly when a message of several entries is handled as replication intends |
| ReceiverRule.SecondEntryLost | core/smr.cpp:203-205 | a message of two entries that is accepted with the first twice and the second lost |
| Replication.PrefixReceives | core/smr.cpp:226-250 | a log that is a prefix of the owner's is extended by the next entry, kept if it has the entry, and otherwise the message is rejected |
| Replication.StepKeeps | core/smr.cpp:211-268 | every event, from every state that satisfies the invariant, keeps it, and logs, commit indices, messages and applied entries only grow |
| Replication.RunInv | core/smr.cpp:211-268 | the invariant holds in every run |
| Replication.RunGrows | core/smr.cpp:211-268 | between any two moments of a run nothing shrinks |
| ReplicationSafety.LogsArePrefixes | core/smr.cpp:174-281 | in every run every replica's log is a prefix of the owner's, in index, epoch and data |
| ReplicationSafety.AppendMessagesAreFaithful | core/smr.cpp:270-281 | every append message ever sent has one entry, and its previous position and entry are those of the owner's log, now and later |
| ReplicationSafety.NeverAborts | core/smr.cpp:59-96 | no run reaches an abort or an index outside a vector, and no message under way could cause one |
| ReplicationSafety.QuorumDurability | core/smr.cpp:252-268 | what the owner has committed is held by more than half of the replicas in every later state |
| ReplicationSafety.StateMachineSafety | core/smr.cpp:86-96 | commit indices never decrease or pass the owner's, logs are never cut, and any two replicas at any two times agree on the shorter committed prefix |
| ReplicationSafety.AppliedInOrder | core/smr.cpp:259-267 | the batches handed over, in whatever order indices reach quorum, add up to entries 1..commit: no gap, no repeat |
| ReplicationSafety.OwnerLogIsProposals | core/smr.cpp:211-224 | the owner's log is the operations that arrived, each once, in order, with indices 1, 2, .. |
| CommitLaws.OwnerCommitsAtMajority | core/smr.cpp:252-268 | with two replicas or more the owner's commit index is the greatest index for which more than half of the replicas have voted |
| CommitLaws.AppendCarriesCommit | core/smr.cpp:270-281 | every append message ever sent carries the owner's commit index at the time it was sent |
| CommitLaws.FollowerCommits | core/smr.cpp:226-250 | in every run a follower that takes an append message commits exactly as far as its commit index and the follower's log allow, and keeps that |
| Convergence.FifoRefinesReplication | core/smr.cpp:211-268 | a run of one group over lossless FIFO channels of its own is a run over the lossy network |
| Convergence.FifoRunInv | core/smr.cpp:211-281 | in every such run the channels hold exactly what each follower lacks and what the owner has not yet counted |
| Convergence.QuiescentMeansConverged | core/smr.cpp:211-281 | with nothing in flight all logs equal the owner's and all of it is committed, if and only if n is at least 2 or the log is empty |
| Convergence.DeliveryLowersLoad | core/smr.cpp:226-268 | each delivery, on whichever channel, brings quiescence one step closer |
| Convergence.DeliveriesConverge | core/smr.cpp:211-281 | from every reachable state some sequence of deliveries, of known length, leads to quiescence and convergence |
| MorphlingReplica.InitLocalGuidance | core/morphling.cpp:58-77 | the loop builds the guidance of the initial partition |
| MorphlingReplica.NewGroups | core/morphling.cpp:28-35 | 256 groups, numbered, each with its own fresh log and vote record, sharing one sink |
| MorphlingReplica.Morphling.constructor | core/morphling.cpp:9-36 | 256 distinct fresh groups that share one outbox, and an empty store |
| MorphlingReplica.Morphling.PrepareMsgs | core/morphling.cpp:165-184 | every waiting append message and reply gets this replica's id and epoch; guidance is left alone |
| MorphlingReplica.Morphling.HandleOperation | core/morphling.cpp:103-126 | guidance back on a wrong epoch, the stored value on a read, and otherwise a proposal in the key's group with the client registered under the new index; every other group unchanged |
| MorphlingReplica.Morphling.ReplyRead | core/morphling.cpp:110-121 | the value under the key, which a read of a missing key creates empty |
| MorphlingReplica.Morphling.SendGuidance | core/morphling.cpp:157-163 | one guidance message goes to that client and nothing else changes |
| MorphlingReplica.Morphling.ProposeIn | core/morphling.cpp:86-90 | only the group the key maps to takes the step |
| MorphlingReplica.Morphling.HandleAppendEntries | core/morphling.cpp:128-136 | guidance queued on a wrong epoch, otherwise the step of the named group alone |
| MorphlingReplica.Morphling.HandleAppendEntriesReply | core/morphling.cpp:139-147 | as above; newly committed entries wait to be applied |
| MorphlingReplica.Morphling.ReplyWithGuidance | core/morphling.cpp:149-155 | one guidance message waits for that peer |
| MorphlingReplica.Morphling.MaybeApplyEntries | core/morphling.cpp:186-204 | the waiting entries are applied and answered in order, and none is left |
| MorphlingReplica.Morphling.BcastMsgs | core/morphling.cpp:206-231 | all waiting messages leave in order, and none is left |
| MorphlingReplica.Morphling.ServeClient | app/server.cpp:158-178 | a client callback: handle an operation and send what waits, answer a request for guidance, or ignore any other type |
| MorphlingReplica.Morphling.ServePeer | app/server.cpp:185-229 | a peer callback: handle, apply after a reply, then send what waits; any other type changes nothing |
| ReplicaLaws.OtherEpochGetsGuidance | core/morphling.cpp:128-155 | an append message or reply of another epoch changes no log, vote, store or table, and its sender is sent the guidance |
| ReplicaLaws.OthersAreIgnored | app/server.cpp:158-228 | guidance from a peer and messages of other types change nothing |
| ReplicaLaws.ReadTouchesKey | core/morphling.cpp:110-121 | a read makes its key present and changes no value |
| ReplicaLaws.ApplyTouchesKey | core/morphling.cpp:195-199 | applying an entry makes its key present and leaves every other key alone |
| ReplicaLaws.StampingLeavesGuidance | core/morphling.cpp:165-184 | destination and body stay; id and epoch are set except on guidance |
| ReplicaLaws.LoggedOperationsReturnValues | core/morphling.cpp:186-204 | over any run the replies to applied entries carry nothing for a write and, for any other operation, the value of the last write to its key applied before it |
| Cluster.ClusterRefinesEveryGroup | core/morphling.cpp:86-147 | a run of n whole replicas with routed clients is, for each of the 256 groups, a run of that group alone, event by event; no run crashes, so every entry to apply has a client registered |
| FifoCluster.FifoRefinesCluster | app/server.cpp:185-229 | a run of the cluster over one lossless FIFO channel per pair of replicas, shared by all groups, is a run over the lossy network |
| FifoCluster.FifoRefinesEveryGroup | app/server.cpp:185-229 | and what it does to any one group and its part of every channel is a run of that group over channels of its own |
| FifoCluster.QuiescentClusterConverged | core/smr.cpp:211-281 | with nothing in flight a group has converged and committed everything if and only if n is at least 2 or its log is empty |
| FifoCluster.QuiescentMeansAnswered | core/morphling.cpp:103-126 | with n at least 2 and nothing in flight, every accepted write has been committed, applied and answered, once and in log order |
| KeyValue.ApplyingReplays | core/morphling.cpp:186-204 | applying a batch leaves under each key the last write to it in the batch, or what was there |
| KeyValue.StoreIsReplayOfCommittedLog | core/morphling.cpp:186-204 | at the owner of a key, after any run, the stored value is the last write to the key among the committed entries of its group |
| KeyValue.ReadsReturnCommittedWrites | core/morphling.cpp:110-121 | a read at the owner is answered at once with that committed value, whose log prefix a quorum holds in this and every later state |
| KeyValue.CommittedIsHeld | core/smr.cpp:252-268 | in the cluster, what a group has committed at any time is a prefix of what it has later, and a quorum holds it then |
| KeyValue.AnsweredWritesStayVisible | core/morphling.cpp:186-204 | after a write was answered, the store under its key comes from that entry or a later one: no stale read |
| Linearizability.EachKeyIsARegister | core/morphling.cpp:186-204 | the reads and writes of a key, ordered by the events at which they take effect, are a legal register history: each read returned the value of the last write before it, and the writes are the committed ones, once each, in log order |
| Linearizability.ReadTakesEffectAtOnce | core/morphling.cpp:110-121 | a read enters that history at its own event, with the value sent to its client |
| Linearizability.WriteTakesEffectBetween | core/morphling.cpp:103-126 | every committed entry took effect at one event, where it was committed, applied and answered, after the event with which its operation arrived |
| Replies.CommittedRecordedOnce | core/morphling.cpp:186-204 | the entries recorded as answered for a group are its committed entries, each once, in log order |
| Replies.CreatorRegisteredExactlyWhen | core/morphling.cpp:123-125 | the client registered under an index made the entry if and only if no later write of another group got the same index |
| Replies.OneGroupInTurn | core/morphling.cpp:103-126 | when all writes fall in one group, the k-th is recorded as answered on the connection the k-th write came from |
| SentReplies.RepliesMatchRecord | core/morphling.cpp:186-204 | over any run, what a replica has written to clients is what the events account for, and the part due to peer messages is one reply for each recorded answer, in order, on its connection |
| SentReplies.ClientAnsweredAtOnce | core/morphling.cpp:103-121 | a client's message is answered at once with guidance or the value read, and a write is not answered at all |
| SentReplies.OnlyInitialGuidance | core/morphling.cpp:58-77 | every message any replica ever sends to a client carries the initial guidance |
| SentReplies.CommittedAnsweredOnce | core/morphling.cpp:186-204 | of the replies a group's owner has written, those for the group are one for each committed entry, in log order |
| SentReplies.CommittedAnsweredByKey | core/morphling.cpp:186-204 | the same of the messages alone, told apart by the key they name |
| SentReplies.AnswersGoToLatestWrite | core/morphling.cpp:201-201 | each newly applied entry is answered once, on the connection of the last write of any group that got its index |
| SentReplies.AnsweredOnCreatorExactlyWhen | core/morphling.cpp:201-201 | an answer goes out on its creator's connection if and only if the last write that holds the index when it is applied came from that connection |
| SentReplies.OneGroupAnswersCreators | core/morphling.cpp:103-126 | when all writes an owner accepted fall in one group, the replies it wrote to them are one for each of the first commits writes, in order, each on the connection that write came from and with its key |
| Collision.TwoGroupsCollide | core/morphling.cpp:124-124 | a concrete run of four events after which the only message sent to a client is the reply to client 7's operation, on client 8's connection |
| GuidanceClient.Client.constructor | app/client2.cpp:182-193 | no slot filled, no leading guidance, not idle |
| GuidanceClient.CountEpochs | app/client2.cpp:230-235 | the vote map holds exactly the epochs that occur, each with its number of slots |
| GuidanceClient.CountSlots | app/client2.cpp:277-282 | the number of slots with the epoch |
| GuidanceClient.Client.CheckGuidanceQuorum | app/client2.cpp:225-254 | true if and only if the leading epoch is not zero, no collected epoch exceeds it and a majority of slots equal it |
| GuidanceClient.Client.UpdateLeadingGuidance | app/client2.cpp:267-288 | succeeds if and only if a quorum shares the greatest epoch; then the first slot with that epoch is the leading guidance, otherwise it stays |
| GuidanceClient.Client.HasUniformGuidance | app/client2.cpp:255-266 | true if and only if every slot has the same epoch and it is not 0 |
| GuidanceClient.SetUpTakesFirstSlot | app/client2.cpp:553-564 | setting up changes no slot; with equal epochs, not 0, the client becomes idle and is led by the first slot |
| GuidanceClient.CheckSetup | app/client2.cpp:553-568 | clients are set up in order up to the first that is not ready; the result says whether all were |
| GuidanceClient.Client.SetGuidance | app/client2.cpp:219-224 | one slot changes and nothing else |
| GuidanceClient.Client.ResetTurnCollection | app/client2.cpp:290-294 | every slot is blank again |
| GuidanceClient.Client.OneSend | app/client2.cpp:350-409 | only an idle client with a ticket sends: the operation to the owner of its key and, for a read, one guidance request to every other replica |
| GuidanceClient.Client.HandleReply | app/client2.cpp:475-516 | the new state is that of receiving the message, in each status |
| GuidanceClient.OperationsGoToTheOwner | app/client2.cpp:380-409 | under the initial guidance each key has a single owner, and guidance is asked of exactly the others |
| GuidanceClient.ReadFinishesExactlyWhen | app/client2.cpp:475-516 | from any reading state, the read is over if and only if at some point from its reply on a quorum agreed in the slots as then overwritten |
| GuidanceClient.ReadTurnCompletes | app/client2.cpp:475-516 | once all n replicas have answered, in any order and mixed with late guidance, and the last word of each carries the leading epoch, the client is idle |
| GuidanceClient.LateGuidanceCountsExactlyWhen | app/client2.cpp:350-409 | from any reading state, the read can end with fewer than a quorum of answers in its own turn if and only if there are two replicas or more and some slot already carried the leading epoch |
| ClientRuns.SlotsAreLatestSinceReset | app/client2.cpp:219-224 | in every run each slot holds the last guidance on its connection since the last reset, or is blank |
| ClientRuns.MessageEffect | app/client2.cpp:475-516 | in every status, what a message does: it ends the operation and blanks the slots, or fills one slot, or is ignored; the leading guidance stays |
| ClientRuns.ReadFinishesInRun | app/client2.cpp:475-516 | in every run, a read is over if and only if at some point from its reply on a quorum agreed in the guidance received since the last reset |
| ClientRuns.ReadCompletesInRun | app/client2.cpp:475-516 | in every run, once all n replicas have answered and the last word of each carries the leading epoch, the client is idle |
| ClientRuns.EarlyFinishInRunExactlyWhen | app/client2.cpp:350-409 | in every run, the next read can end early if and only if guidance with the leading epoch is left over since the last reset |
| ClientRuns.FirstReadConfirmsItself | app/client2.cpp:553-568 | after the set-up the first read ends on its own reply, confirmed by no other replica |
| ClientRuns.WriteFinishesInRun | app/client2.cpp:506-508 | in every run a write is over if and only if a reply has arrived, whatever guidance came with it |
| ClientRuns.WriteResetsInRun | app/client2.cpp:506-508 | at its first reply every slot is blank and the leading guidance is what it was |
| ClientRuns.NothingToSend | app/client2.cpp:350-359 | without a ticket, or with an operation outstanding, the turn to send changes nothing |
| ClientRuns.OperationsReachTheOwner | app/client2.cpp:380-389 | when only the initial guidance arrives, a client ready to send leads with it, finds an owner for every key and sends to the one replica that owns the group |
| Framing.Send | app/server.cpp:48-61 | appends to the output exactly one frame: three length bytes, type byte, payload |
| Framing.PackOperation | app/utils.cpp:21-42 | the buffer starts with the client frame of the packed message, its size is returned, and the rest is untouched |
| Framing.PackGetGuidance | app/utils.cpp:44-48 | the four bytes are an empty frame of the right type |
| Framing.FullRead | app/utils.cpp:50-59 | however the stream is split, exactly `size` bytes arrive in order and leave the stream |
| Framing.RecvMsg | app/utils.cpp:68-91 | reads one message and leaves the stream at the next; an unknown type consumes the header only and leaves the size alone |
| Framing.OrAdds | app/utils.cpp:71-75 | `or` with bits above those of a number adds them, for any width |
| Framing.FrameBytes | app/server.cpp:48-61 | three length bytes, least significant first, the type, then the payload |
| Framing.KnownTypes | app/utils.cpp:81-85 | the types that are read are 0 to 5 |
| Framing.PackedIsRead | app/utils.cpp:21-48 | what the two packers write is read back, whatever follows |
| Framing.UnknownTypeLeavesPayload | app/utils.cpp:81-85 | of a frame of any other type only the header is taken |
| Framing.FrameReadBack | app/utils.cpp:68-91 | a framed message of known type is read back, with the stream left at its end, if and only if its payload is below 2^24 bytes |
| Framing.StreamReadBack | app/utils.cpp:68-91 | whatever list of such messages is written, exactly that list is read |
| Framing.ReadMeansWritten | app/utils.cpp:68-91 | conversely a stream read to its end is exactly the frames of the messages read |
| Framing.ReadStream | app/utils.cpp:68-91 | repeated calls return exactly the list of messages written, however the stream is split |
| BumpArena.Arena.constructor | extra/arena.cpp:66-67 | no block, no free space, no usage |
| BumpArena.Arena.Allocate | extra/arena.cpp:50-62 | address and new state are those of serving an unaligned request |
| BumpArena.Arena.AllocateAligned | extra/arena.cpp:93-111 | the same for an aligned request |
| BumpArena.Arena.AllocateFallback | extra/arena.cpp:75-91 | large objects get their own block and the current one stays; small ones abandon it |
| BumpArena.Arena.AllocateNewBlock | extra/arena.cpp:113-119 | one block more, and its size plus a pointer on the usage |
| BumpArena.FittingRequest | extra/arena.cpp:50-62 | a request that fits takes the first bytes of the free space, from the first aligned address on if asked; no block is added |
| BumpArena.RequestInNewBlock | extra/arena.cpp:75-91 | otherwise it starts a new block: of its own size, with the current block left alone, above 1024 bytes, and of 4096 bytes up to that |
| BumpArena.RegionsDisjoint | extra/arena.cpp:50-119 | over any sequence of requests every region has the size asked for, lies inside one block and overlaps no other; usage is the total of block sizes plus one pointer each |
| BumpArena.AlignedRegions | extra/arena.cpp:93-111 | over any sequence of requests, the aligned ones get 8-aligned addresses, given aligned blocks |
| BumpArena.WasteBound | extra/arena.cpp:75-91 | without aligned requests each abandoned block loses at most 1023 bytes, and all that is ever abandoned is less than a third of what was requested |
| BumpArena.SpaceIsAccountedFor | extra/arena.cpp:50-119 | the bytes of all blocks are those requested, skipped to align, abandoned and still free; without aligned requests none are skipped |
| NestedServer.UDPServer.constructor | extra/server.cpp:277-285 | 1,000,000 clear flags, no pending client |
| NestedServer.UDPServer.OnClientMsg | extra/server.cpp:233-253 | the client waits under the next number, and each other peer is asked once |
| NestedServer.UDPServer.OnNestedMsg | extra/server.cpp:255-262 | the asker gets its number back |
| NestedServer.UDPServer.OnNestedReplyMsg | extra/server.cpp:264-275 | the first reply answers and forgets the client; a later one does nothing |
| NestedServer.AsksOnce | extra/server.cpp:237-249 | each other server is asked once and no client is sent anything |
| NestedServer.DeliverKeeps | extra/server.cpp:264-275 | a delivery keeps the invariant, and fails if and only if it is a reply numbered 1,000,000 or more |
| NestedServer.PendingIsUnanswered | extra/server.cpp:233-275 | the pending map holds exactly the issued requests not yet answered, each with its own client |
| NestedServer.AnsweredOnceAPeerReplied | extra/server.cpp:264-275 | a request has exactly one answer, to the client that made it, if a peer's reply has arrived, and none otherwise, under loss, duplication and reordering |
| NestedServer.ClientsGetAnswersOnly | extra/server.cpp:233-275 | in every run the packets sent to clients are exactly the answers to requests a peer has replied to, each to the client that made the request |
| NestedServer.NothingInFlightMeansAnswered | extra/server.cpp:233-275 | once every packet has arrived all requests are answered, if and only if there is another server to ask or nothing was asked |
| NestedServer.NoFailureWithinLimit | extra/server.cpp:281-282 | no event fails while no server has issued more than 1,000,000 numbers |
| NestedServer.FailureBeyondLimit | extra/server.cpp:281-282 | once one has, two deliveries lead to a failure |
| NestedServer.FailureIsReachable | extra/server.cpp:281-282 | with two servers or more there is a run in which a handler fails |

## Left out

- msgpack encoding: entries and client messages hold the decoded operation, as if decoding inverted encoding;
  an operation that does not decode is not modelled. In `Framing` a payload is any byte sequence.
- 64-bit wrap-around of epochs, indices, commit indices, sequence numbers and allocation sizes: unbounded here.
- `SMRLog::append` keeps a reference across `emplace_back`; the model reads the index first, which is what
  happens while the log stays within the 1,000,000 entries it reserves.
- The number of replicas is fixed at 3 in the source, which exits on any other number; here it is n.
- `PeerStatus.match`, the `SMR` move constructor, `show_all`, `debug` accessors, logging, gauges: no effect.
- `NodeStatus` and `Guidance` are values, because they are copied into messages; their setters return a new value.
  `set_dead` is never called.
- Epoch changes, hand-over of a group, dead nodes and retransmission: not implemented in the source.
- Followers never apply, so the store properties are about owners.
- A peer's transport is its id and a client's transport a number; what is written to clients is the list `sent`.
  A missing peer transport, connection set-up, the first guidance exchange between peers, periodic sends, timers,
  libevent and sockets are not modelled.
- The shared counter behind `can_send` is an argument of `OneSend`; the epoch 1 every operation is sent under, client
  ids, data and timing are left out, as are the unreplicated-read mode and app/client3.cpp, a UDP copy of the client.
- Framing.FullRead: does not model waiting for bytes that never come, where the source spins; it demands that
  enough bytes arrive. The 2048-byte buffers of the callers become the precondition that the payload fits.
- `drain_read` and the error text sent to a peer after an unknown type.
- Arena: contents of memory, the destructor and the real heap; the address `new` would return is an argument.
- NestedServer: the UDP header cast and `client_id`; peers are numbered 0 to n-1.
- `parse_addr`, command lines, threads, benchmarks and the libevent experiments.
