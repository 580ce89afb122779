/** What one replica does with client and peer messages (core/morphling.cpp), as functions of its state,
    and the two server callbacks around it (app/server.cpp). */
module MorphlingSteps {
  import opened Routing
  import opened Messages
  import opened ReplicatedLog
  import opened SmrSteps

  // What never changes: the replica's id, the number of replicas and the guidance.
  datatype Node = Node(me: nat, n: nat, guide: Guidance)

  // A connection to a client.
  type Transport = nat

  datatype ClientSend = ClientSend(trans: Transport, msg: ClientOut)

  type Store = map<KeyHash, Bytes>

  /** `smrs` has one entry per key group; `pendings` maps a log index to the client waiting for it;
      `sent` is everything written to clients so far. */
  datatype MState = MState(
    smrs: seq<SmrState>,
    nextMsgs: seq<GenericMessage>,
    applyEntries: seq<Entry>,
    pendings: map<nat, Transport>,
    storage: Store,
    sent: seq<ClientSend>)

  function InitialState(): MState
  {
    MState(seq(KEY_SPACE, i => FRESH), [], [], map[], map[], [])
  }

  // Looking a key up creates it, empty, when it is missing.
  function Fetch(storage: Store, key: KeyHash): Bytes
  {
    if key in storage then storage[key] else []
  }

  function Touch(storage: Store, key: KeyHash): Store
  {
    if key in storage then storage else storage[key := []]
  }

  function GroupOf(keyHash: KeyHash): (g: nat)
    ensures g < KEY_SPACE
  {
    KeyPos(keyHash) as nat
  }

  function PreparedMsg(k: Node, m: GenericMessage): GenericMessage
  {
    if m.body.GuidanceBody? then m else m.(from := k.me, epoch := k.guide.epoch)
  }

  function Prepared(k: Node, msgs: seq<GenericMessage>): seq<GenericMessage>
  {
    seq(|msgs|, i requires 0 <= i < |msgs| => PreparedMsg(k, msgs[i]))
  }

  function ReplyData(k: Node, keyHash: KeyHash, data: Bytes): ClientOut
  {
    ClientReply(k.me, true, k.guide, keyHash, data)
  }

  function OperationAt(k: Node, s: MState, msg: ClientMessage, trans: Transport): MState
    requires |s.smrs| == KEY_SPACE
  {
    if k.guide.epoch != msg.epoch then
      s.(sent := s.sent + [ClientSend(trans, GuidanceReply(k))])
    else if msg.op.opType == READ then
      s.(storage := Touch(s.storage, msg.keyHash),
         sent := s.sent + [ClientSend(trans, ReplyData(k, msg.keyHash, Fetch(s.storage, msg.keyHash)))])
    else
      var g := GroupOf(msg.keyHash);
      var step := OperationStep(s.smrs[g], k.n, k.me, g, msg);
      s.(smrs := s.smrs[g := step.state],
         pendings := s.pendings[|step.state.log| := trans],
         nextMsgs := Prepared(k, s.nextMsgs + step.out))
  }

  // The replica runs into an ABORT_F, or indexes outside a vector, when handed this peer message.
  predicate PeerAborts(k: Node, s: MState, m: GenericMessage)
  {
    match m.body
    case Append(_, _, _, g, entries) =>
      m.epoch == k.guide.epoch && (entries == [] || g >= |s.smrs| || AppendAborts(s.smrs[g], m.body))
    case AppendReply(_, g, _) =>
      m.epoch == k.guide.epoch
      && (g >= |s.smrs| || m.from >= k.n || !WellIndexed(s.smrs[g].log) || ReplyAborts(s.smrs[g], k.n, m.body, m.from))
    case GuidanceBody(_, _) => false
  }

  function ReplyGuidance(k: Node, to: nat): GenericMessage
  {
    GenericMessage(to, k.me, 0, GuidanceBody(3, k.guide))
  }

  function AppendAt(k: Node, s: MState, m: GenericMessage): MState
    requires m.body.Append? && !PeerAborts(k, s, m)
  {
    if k.guide.epoch != m.epoch then s.(nextMsgs := s.nextMsgs + [ReplyGuidance(k, m.from)])
    else
      var g := m.body.groupId;
      var step := AppendStep(s.smrs[g], g, m.body, m.from);
      s.(smrs := s.smrs[g := step.state], nextMsgs := Prepared(k, s.nextMsgs + step.out))
  }

  function AppendReplyAt(k: Node, s: MState, m: GenericMessage): MState
    requires m.body.AppendReply? && !PeerAborts(k, s, m)
  {
    if k.guide.epoch != m.epoch then s.(nextMsgs := s.nextMsgs + [ReplyGuidance(k, m.from)])
    else
      var g := m.body.groupId;
      var step := ReplyStep(s.smrs[g], k.n, m.body, m.from);
      s.(smrs := s.smrs[g := step.state], applyEntries := s.applyEntries + step.applied,
         nextMsgs := Prepared(k, s.nextMsgs))
  }

  // Every entry to apply has a client waiting under its index.
  predicate AllPending(s: MState, entries: seq<Entry>)
  {
    forall e <- entries :: e.index in s.pendings
  }

  function ApplyOne(k: Node, s: MState, e: Entry): MState
    requires e.index in s.pendings
  {
    var op := e.data;
    if op.opType == WRITE then
      s.(storage := s.storage[op.keyHash := op.data],
         sent := s.sent + [ClientSend(s.pendings[e.index], ReplyData(k, op.keyHash, []))])
    else
      s.(storage := Touch(s.storage, op.keyHash),
         sent := s.sent + [ClientSend(s.pendings[e.index], ReplyData(k, op.keyHash, Fetch(s.storage, op.keyHash)))])
  }

  function ApplyBatch(k: Node, s: MState, entries: seq<Entry>): (s': MState)
    requires AllPending(s, entries)
    ensures s'.smrs == s.smrs && s'.pendings == s.pendings
    ensures s'.nextMsgs == s.nextMsgs && s'.applyEntries == s.applyEntries
  {
    if entries == [] then s
    else ApplyOne(k, ApplyBatch(k, s, entries[..|entries| - 1]), entries[|entries| - 1])
  }

  function MaybeApply(k: Node, s: MState): MState
    requires AllPending(s, s.applyEntries)
  {
    ApplyBatch(k, s, s.applyEntries).(applyEntries := [])
  }

  // ---- The server callbacks: one handler, then (for a reply) apply, then send what is waiting ----

  datatype Served = Served(state: MState, wire: seq<GenericMessage>)

  function Broadcasting(s: MState): Served
  {
    Served(s.(nextMsgs := []), s.nextMsgs)
  }

  function OnClientMessage(k: Node, s: MState, msg: ClientMessage, trans: Transport): Served
    requires |s.smrs| == KEY_SPACE
  {
    Broadcasting(OperationAt(k, s, msg, trans))
  }

  // What arrives on a client's connection; the last stands for every type that is not a client's.
  datatype ClientInput = Operate(msg: ClientMessage) | AskGuidance | NotFromClient

  function GuidanceReply(k: Node): ClientOut
  {
    GuidanceOut(k.me, 3, k.guide)
  }

  function OnClientInput(k: Node, s: MState, input: ClientInput, trans: Transport): Served
    requires |s.smrs| == KEY_SPACE
  {
    match input
    case Operate(msg) => OnClientMessage(k, s, msg, trans)
    case AskGuidance => Served(s.(sent := s.sent + [ClientSend(trans, GuidanceReply(k))]), [])
    case NotFromClient => Served(s, [])
  }

  // As PeerAborts, or an applied entry has no client to answer.
  predicate PeerCrashes(k: Node, s: MState, m: GenericMessage)
  {
    PeerAborts(k, s, m)
    || (m.body.AppendReply? && !AllPending(AppendReplyAt(k, s, m), AppendReplyAt(k, s, m).applyEntries))
  }

  function OnPeerMessage(k: Node, s: MState, m: GenericMessage): Served
    requires !PeerCrashes(k, s, m)
  {
    match m.body
    case Append(_, _, _, _, _) => Broadcasting(AppendAt(k, s, m))
    case AppendReply(_, _, _) => Broadcasting(MaybeApply(k, AppendReplyAt(k, s, m)))
    case GuidanceBody(_, _) => Broadcasting(s)
  }

  // What arrives on a peer's connection; the last stands for unknown types and types that are not a peer's.
  datatype PeerInput = PeerMessage(m: GenericMessage) | NotFromPeer

  function OnPeerInput(k: Node, s: MState, input: PeerInput): Served
    requires input.PeerMessage? ==> !PeerCrashes(k, s, input.m)
  {
    match input
    case PeerMessage(m) => OnPeerMessage(k, s, m)
    case NotFromPeer => Served(s, [])
  }
}
