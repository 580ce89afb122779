/** The messages replicas and clients exchange (core/message.h), and log entries (core/smr.h). */
module Messages {
  import opened Routing

  newtype uint8 = x: int | 0 <= x < 256

  type Bytes = seq<uint8>

  const READ := 0
  const WRITE := 1

  datatype Operation = Operation(opType: int, keyHash: KeyHash, data: Bytes)

  // What the entry in front of a log carries: nothing.
  const NO_OPERATION := Operation(READ, KeyHash(0), [])

  // The payload is the operation itself: its byte encoding is msgpack's.
  datatype Entry = Entry(epoch: nat, index: nat, data: Operation)

  datatype ClientMessage = ClientMessage(epoch: nat, keyHash: KeyHash, op: Operation)

  datatype Body =
    | Append(prevTerm: nat, prevIndex: nat, commit: nat, groupId: nat, entries: seq<Entry>)
    | AppendReply(success: bool, groupId: nat, index: nat)
    | GuidanceBody(votes: int, guide: Guidance)

  // `from` and `epoch` are stamped by the replica just before the message leaves it.
  datatype GenericMessage = GenericMessage(to: nat, from: nat, epoch: nat, body: Body)

  // What a client is sent: a reply to its operation, or guidance when its epoch is out of date.
  datatype ClientOut =
    | ClientReply(from: nat, success: bool, guidance: Guidance, keyHash: KeyHash, replyData: Bytes)
    | GuidanceOut(from: nat, votes: int, guide: Guidance)
}
