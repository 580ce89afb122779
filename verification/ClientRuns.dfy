/** Whole runs of one client (app/client2.cpp): set-up, operations and what arrives, in any order. */
module ClientRuns {
  import opened Routing
  import opened Messages
  import opened EntryVotes
  import opened GuidanceClient
  import Sets
  import MorphlingSteps
  import Cluster
  import SentReplies

  datatype Event =
    | Setup                                                   // check_setup reaches this client
    | Send(keyHash: KeyHash, isRead: bool, hasTicket: bool)   // the client's turn to send
    | Arrives(msg: Incoming)

  // `started`: the set-up phase is over.  `aborted`: no node owned the key of an operation.
  datatype Running = Running(state: ClientState, started: bool, aborted: bool)

  function Initial(n: nat): Running
  {
    Running(ClientState(Init, Blank(n), NO_GUIDANCE), false, false)
  }

  predicate NobodyOwns(r: Running, ev: Event)
  {
    ev.Send? && r.state.status == Idle && ev.hasTicket && r.state.leading.NodeFor(KeyPos(ev.keyHash)) == -1
  }

  function Step(r: Running, ev: Event): Running
  {
    if r.aborted then r
    else if NobodyOwns(r, ev) then r.(aborted := true)
    else match ev
      case Setup => if r.started then r else r.(state := SetUp(r.state))
      case Send(_, isRead, hasTicket) =>
        Running(AfterSend(r.state, isRead, hasTicket), r.started || r.state.status == Idle, false)
      case Arrives(msg) => if msg.id < |r.state.collection| then r.(state := Receive(r.state, msg)) else r
  }

  function Run(n: nat, events: seq<Event>): Running
  {
    if events == [] then Initial(n) else Step(Run(n, events[..|events| - 1]), events[|events| - 1])
  }

  lemma RunOneMore(n: nat, events: seq<Event>, ev: Event)
    ensures Run(n, events + [ev]) == Step(Run(n, events), ev)
    ensures Since(n, events + [ev]) == SinceStep(Run(n, events), Since(n, events), ev)
  {
    assert (events + [ev])[..|events|] == events;
  }

  // ---- What the slots hold ----

  // A quorum agrees once the message's guidance is in its slot.
  predicate Confirms(s: ClientState, msg: Incoming)
    requires msg.id < |s.collection|
  {
    QuorumAgrees(s.collection[msg.id := msg.guide], s.leading.epoch)
  }

  // The message ends the operation, which blanks every slot: a write ends with its reply, a read when a quorum agrees,
  // at its reply or at guidance that comes later.
  predicate Resets(s: ClientState, msg: Incoming)
    requires msg.id < |s.collection|
  {
    match s.status
    case Writing => msg.ReplyFrom?
    case Reading => msg.ReplyFrom? && Confirms(s, msg)
    case WaitingGuidance => msg.GuidanceFrom? && Confirms(s, msg)
    case _ => false
  }

  // The message brings guidance the client looks at: a reply does so only while it is reading.
  predicate Counts(s: ClientState, msg: Incoming)
  {
    msg.GuidanceFrom? || s.status == Reading
  }

  function SinceStep(r: Running, since: seq<Incoming>, ev: Event): seq<Incoming>
  {
    if r.aborted || !ev.Arrives? || ev.msg.id >= |r.state.collection| then since
    else if Resets(r.state, ev.msg) then []
    else if Counts(r.state, ev.msg) then since + [ev.msg]
    else since
  }

  // The guidance received since the last reset, in order.
  function Since(n: nat, events: seq<Event>): seq<Incoming>
  {
    if events == [] then []
    else
      var front := events[..|events| - 1];
      SinceStep(Run(n, front), Since(n, front), events[|events| - 1])
  }

  predicate FromReplicas(n: nat, msgs: seq<Incoming>)
  {
    forall i :: 0 <= i < |msgs| ==> msgs[i].id < n
  }

  lemma OverlayMore(collection: seq<Guidance>, msgs: seq<Incoming>, msg: Incoming)
    requires FromReplicas(|collection|, msgs) && msg.id < |collection|
    ensures Overlay(collection, msgs + [msg]) == Overlay(collection, msgs)[msg.id := msg.guide]
  {
    assert (msgs + [msg])[..|msgs|] == msgs;
  }

  ghost predicate SlotsOk(n: nat, r: Running, since: seq<Incoming>)
  {
    && |r.state.collection| == n && FromReplicas(n, since)
    && r.state.collection == Overlay(Blank(n), since)
  }

  /** What a message does to the client, in every status: it ends the operation, or fills a slot, or is ignored; and a
      read's reply that does not end it leaves the client waiting for guidance. */
  lemma MessageEffect(s: ClientState, msg: Incoming)
    requires msg.id < |s.collection|
    ensures Receive(s, msg).collection
            == if Resets(s, msg) then seq(|s.collection|, _ => Guidance(0, 0, []))
               else if Counts(s, msg) then s.collection[msg.id := msg.guide] else s.collection
    ensures Receive(s, msg).status
            == if Resets(s, msg) then Idle
               else if s.status == Reading && msg.ReplyFrom? then WaitingGuidance else s.status
    ensures Receive(s, msg).leading == s.leading
  {
    assert Blank(|s.collection|) == seq(|s.collection|, _ => Guidance(0, 0, []));
  }

  lemma OverlayNothing(n: nat)
    ensures Overlay(Blank(n), []) == Blank(n)
  {
  }

  lemma {:induction false} ArrivalKeepsSlots(n: nat, s: ClientState, since: seq<Incoming>, msg: Incoming)
    requires msg.id < n && |s.collection| == n && FromReplicas(n, since) && s.collection == Overlay(Blank(n), since)
    ensures Resets(s, msg) ==> Receive(s, msg).collection == Overlay(Blank(n), [])
    ensures !Resets(s, msg) && Counts(s, msg) ==>
              FromReplicas(n, since + [msg]) && Receive(s, msg).collection == Overlay(Blank(n), since + [msg])
    ensures !Resets(s, msg) && !Counts(s, msg) ==> Receive(s, msg).collection == s.collection
  {
    MessageEffect(s, msg);
    assert Blank(n) == seq(n, _ => Guidance(0, 0, []));
    OverlayNothing(n);
    OverlayMore(Blank(n), since, msg);
  }

  lemma {:induction false} StepKeepsSlots(n: nat, r: Running, since: seq<Incoming>, ev: Event)
    requires SlotsOk(n, r, since)
    ensures SlotsOk(n, Step(r, ev), SinceStep(r, since, ev))
  {
    if ev.Arrives? && ev.msg.id < n {
      ArrivalKeepsSlots(n, r.state, since, ev.msg);
    } else {
      assert SinceStep(r, since, ev) == since && Step(r, ev).state.collection == r.state.collection;
    }
  }

  lemma {:induction false} RunSlots(n: nat, events: seq<Event>)
    ensures SlotsOk(n, Run(n, events), Since(n, events))
  {
    if events == [] {
    } else {
      var front := events[..|events| - 1];
      RunSlots(n, front);
      StepKeepsSlots(n, Run(n, front), Since(n, front), events[|events| - 1]);
    }
  }

  /** In every run each slot holds the last guidance that came in on its connection since the last reset, and is
      blank when there was none. */
  lemma {:induction false} SlotsAreLatestSinceReset(n: nat, events: seq<Event>, id: nat)
    requires id < n
    ensures |Run(n, events).state.collection| == n
    ensures var since := Since(n, events);
            Run(n, events).state.collection[id]
            == if LastFrom(since, id) == -1 then NO_GUIDANCE else since[LastFrom(since, id)].guide
  {
    RunSlots(n, events);
    OverlayIs(Blank(n), Since(n, events), id);
  }

  // ---- A read, in any run ----

  function Arrivals(msgs: seq<Incoming>): seq<Event>
  {
    seq(|msgs|, i requires 0 <= i < |msgs| => Arrives(msgs[i]))
  }

  lemma ArrivalsMore(before: seq<Event>, msgs: seq<Incoming>, msg: Incoming)
    ensures before + Arrivals(msgs + [msg]) == before + Arrivals(msgs) + [Arrives(msg)]
  {
    assert Arrivals(msgs + [msg]) == Arrivals(msgs) + [Arrives(msg)];
  }

  lemma OneMoreArrival(n: nat, before: seq<Event>, front: seq<Incoming>, last: Incoming, r: Running)
    requires Run(n, before + Arrivals(front)) == r && !r.aborted && last.id < |r.state.collection|
    ensures Run(n, before + Arrivals(front + [last])) == r.(state := Receive(r.state, last))
  {
    ArrivalsMore(before, front, last);
    RunOneMore(n, before + Arrivals(front), Arrives(last));
  }

  lemma {:induction false} ArrivalsReceived(n: nat, before: seq<Event>, msgs: seq<Incoming>)
    requires !Run(n, before).aborted && |Run(n, before).state.collection| == n && FromReplicas(n, msgs)
    ensures Run(n, before + Arrivals(msgs)) == Run(n, before).(state := ReceiveAll(Run(n, before).state, msgs))
  {
    var r := Run(n, before);
    if msgs == [] {
      assert before + Arrivals(msgs) == before;
    } else {
      var front, last := msgs[..|msgs| - 1], msgs[|msgs| - 1];
      ArrivalsReceived(n, before, front);
      OneMoreArrival(n, before, front, last, r.(state := ReceiveAll(r.state, front)));
      assert front + [last] == msgs;
    }
  }

  lemma {:induction false} OverlayOfBoth(collection: seq<Guidance>, a: seq<Incoming>, b: seq<Incoming>)
    requires FromReplicas(|collection|, a) && FromReplicas(|collection|, b)
    ensures FromReplicas(|collection|, a + b)
    ensures Overlay(Overlay(collection, a), b) == Overlay(collection, a + b)
  {
    if b == [] {
      assert a + b == a;
    } else {
      var front, last := b[..|b| - 1], b[|b| - 1];
      OverlayOfBoth(collection, a, front);
      assert front + [last] == b && a + front + [last] == a + b;
      OverlayMore(Overlay(collection, a), front, last);
      OverlayMore(collection, a + front, last);
    }
  }

  // An operation on the key can be sent now.
  predicate CanSend(n: nat, before: seq<Event>, key: KeyHash)
  {
    var r := Run(n, before);
    !r.aborted && r.state.status == Idle && r.state.leading.NodeFor(KeyPos(key)) != -1
  }

  function Turn(before: seq<Event>, key: KeyHash, turn: seq<Incoming>): seq<Event>
  {
    before + [Send(key, true, true)] + Arrivals(turn)
  }

  // The state in which the read's messages arrive.
  lemma ReadSent(n: nat, before: seq<Event>, key: KeyHash, turn: seq<Incoming>)
    requires CanSend(n, before, key) && FromReplicas(n, turn)
    ensures |Run(n, before).state.collection| == n
    ensures Run(n, before + [Send(key, true, true)])
            == Running(Run(n, before).state.(status := Reading), true, false)
    ensures Run(n, Turn(before, key, turn)).state
            == ReceiveAll(Run(n, before).state.(status := Reading), turn)
  {
    RunSlots(n, before);
    RunOneMore(n, before, Send(key, true, true));
    ArrivalsReceived(n, before + [Send(key, true, true)], turn);
  }

  // After k messages of the turn, the reply among them, a quorum agrees in what came since the last reset.
  predicate ConfirmedSince(n: nat, since: seq<Incoming>, epoch: nat, turn: seq<Incoming>, p: nat, k: nat)
    requires FromReplicas(n, since) && FromReplicas(n, turn) && k <= |turn|
  {
    p < k && QuorumAgrees(Overlay(Blank(n), since + turn[..k]), epoch)
  }

  ghost predicate ConfirmedSometime(n: nat, since: seq<Incoming>, epoch: nat, turn: seq<Incoming>, p: nat)
    requires FromReplicas(n, since) && FromReplicas(n, turn)
  {
    exists k: nat :: k <= |turn| && ConfirmedSince(n, since, epoch, turn, p, k)
  }

  lemma SameConfirmation(n: nat, since: seq<Incoming>, slots: seq<Guidance>, epoch: nat, turn: seq<Incoming>, p: nat,
                         k: nat)
    requires FromReplicas(n, since) && FromReplicas(n, turn) && k <= |turn| && slots == Overlay(Blank(n), since)
    ensures ConfirmedSince(n, since, epoch, turn, p, k) <==> ConfirmedAt(slots, epoch, turn, p, k)
  {
    OverlayOfBoth(Blank(n), since, turn[..k]);
  }

  lemma {:induction false} FinishesSince(n: nat, since: seq<Incoming>, s: ClientState, turn: seq<Incoming>, p: nat)
    requires FromReplicas(n, since) && OneTurn(n, turn, p) && s.status == Reading
    requires s.collection == Overlay(Blank(n), since)
    ensures FromReplicas(n, turn)
    ensures ReceiveAll(s, turn).status == Idle <==> ConfirmedSometime(n, since, s.leading.epoch, turn, p)
  {
    ReadFinishesExactlyWhen(s, turn, p);
    if k: nat :| k <= |turn| && ConfirmedSince(n, since, s.leading.epoch, turn, p, k) {
      SameConfirmation(n, since, s.collection, s.leading.epoch, turn, p, k);
    }
    if k: nat :| k <= |turn| && ConfirmedAt(s.collection, s.leading.epoch, turn, p, k) {
      SameConfirmation(n, since, s.collection, s.leading.epoch, turn, p, k);
    }
  }

  /** When a read finishes, in any run: if and only if, at some point from its reply on, a quorum of slots carried the
      leading epoch and none a greater one, each slot being the last guidance on its connection since the last
      reset, whether from this turn or from before. */
  lemma {:induction false} ReadFinishesInRun(n: nat, before: seq<Event>, key: KeyHash, turn: seq<Incoming>, p: nat)
    requires CanSend(n, before, key) && OneTurn(n, turn, p)
    ensures FromReplicas(n, Since(n, before)) && FromReplicas(n, turn)
    ensures Run(n, Turn(before, key, turn)).state.status == Idle
            <==> ConfirmedSometime(n, Since(n, before), Run(n, before).state.leading.epoch, turn, p)
  {
    RunSlots(n, before);
    ReadSent(n, before, key, turn);
    FinishesSince(n, Since(n, before), Run(n, before).state.(status := Reading), turn, p);
  }

  /** A read completes, in any run: once every replica has answered, in any order and mixed with late guidance, and the
      last word of each carries the leading epoch, the client is idle again. */
  lemma {:induction false} ReadCompletesInRun(n: nat, before: seq<Event>, key: KeyHash, turn: seq<Incoming>, p: nat)
    requires CanSend(n, before, key) && OneTurn(n, turn, p) && Run(n, before).state.leading.epoch != 0
    requires forall id: nat :: id < n ==>
               LastFrom(turn, id) >= 0 && turn[LastFrom(turn, id)].guide.epoch == Run(n, before).state.leading.epoch
    ensures Run(n, Turn(before, key, turn)).state.status == Idle
  {
    ReadSent(n, before, key, turn);
    ReadTurnCompletes(Run(n, before).state.(status := Reading), turn, p);
  }

  // Since the last reset the last word of some replica carries the leading epoch.
  ghost predicate LeftOver(n: nat, before: seq<Event>)
  {
    exists id: nat :: id < n && LastWordCarries(Since(n, before), id, Run(n, before).state.leading.epoch)
  }

  predicate LastWordCarries(since: seq<Incoming>, id: nat, epoch: nat)
  {
    LastFrom(since, id) >= 0 && since[LastFrom(since, id)].guide.epoch == epoch
  }

  /** In any run, the read about to be sent can finish with fewer than a quorum of answers in its own turn if and
      only if there are at least two replicas, the leading epoch is set, and guidance that carries it is left over
      from before. */
  lemma {:induction false} EarlyFinishInRunExactlyWhen(n: nat, before: seq<Event>, key: KeyHash)
    requires CanSend(n, before, key)
    ensures (exists turn, p: nat :: FinishesEarly(Run(n, before).state.(status := Reading), turn, p))
            <==> n >= 2 && Run(n, before).state.leading.epoch != 0 && LeftOver(n, before)
  {
    var s := Run(n, before).state.(status := Reading);
    var epoch := s.leading.epoch;
    RunSlots(n, before);
    LateGuidanceCountsExactlyWhen(s);
    if epoch != 0 {
      forall id: nat | id < n
        ensures id in Carrying(s.collection, epoch) <==> LastWordCarries(Since(n, before), id, epoch)
      {
        SlotsAreLatestSinceReset(n, before, id);
      }
      if id :| id in Carrying(s.collection, epoch) {
        assert LastWordCarries(Since(n, before), id, epoch);
      }
    }
  }

  // ---- A write, in any run ----

  function WriteTurn(before: seq<Event>, key: KeyHash, msgs: seq<Incoming>): seq<Event>
  {
    before + [Send(key, false, true)] + Arrivals(msgs)
  }

  lemma WriteSent(n: nat, before: seq<Event>, key: KeyHash, msgs: seq<Incoming>)
    requires CanSend(n, before, key) && FromReplicas(n, msgs)
    ensures |Run(n, before).state.collection| == n
    ensures Run(n, before + [Send(key, false, true)]) == Running(Run(n, before).state.(status := Writing), true, false)
    ensures Run(n, WriteTurn(before, key, msgs)).state
            == ReceiveAll(Run(n, before).state.(status := Writing), msgs)
  {
    RunSlots(n, before);
    RunOneMore(n, before, Send(key, false, true));
    ArrivalsReceived(n, before + [Send(key, false, true)], msgs);
  }

  predicate NoReply(msgs: seq<Incoming>)
  {
    forall i :: 0 <= i < |msgs| ==> msgs[i].GuidanceFrom?
  }

  lemma {:induction false} StillWriting(s: ClientState, msgs: seq<Incoming>)
    requires s.status == Writing && FromReplicas(|s.collection|, msgs) && NoReply(msgs)
    ensures ReceiveAll(s, msgs).status == Writing
  {
    if msgs == [] {
    } else {
      var front, last := msgs[..|msgs| - 1], msgs[|msgs| - 1];
      StillWriting(s, front);
      MessageEffect(ReceiveAll(s, front), last);
    }
  }

  lemma {:induction false} EndsAtReply(s: ClientState, msgs: seq<Incoming>, p: nat)
    requires s.status == Writing && FromReplicas(|s.collection|, msgs) && p < |msgs|
    requires NoReply(msgs[..p]) && msgs[p].ReplyFrom?
    ensures ReceiveAll(s, msgs[..p + 1]) == ClientState(Idle, Blank(|s.collection|), s.leading)
  {
    var front := msgs[..p];
    StillWriting(s, front);
    assert msgs[..p + 1][..p] == front;
    MessageEffect(ReceiveAll(s, front), msgs[p]);
    assert Blank(|s.collection|) == seq(|s.collection|, _ => Guidance(0, 0, []));
  }

  lemma {:induction false} FirstReply(msgs: seq<Incoming>) returns (p: nat)
    requires !NoReply(msgs)
    ensures p < |msgs| && NoReply(msgs[..p]) && msgs[p].ReplyFrom?
  {
    var last := |msgs| - 1;
    if NoReply(msgs[..last]) {
      p := last;
    } else {
      p := FirstReply(msgs[..last]);
      assert msgs[..last][..p] == msgs[..p];
    }
  }

  /** A write is over, in any run, if and only if a reply has arrived, whatever guidance came before or after; until
      then the client is still writing. */
  lemma {:induction false} WriteFinishesInRun(n: nat, before: seq<Event>, key: KeyHash, msgs: seq<Incoming>)
    requires CanSend(n, before, key) && FromReplicas(n, msgs)
    ensures var status := Run(n, WriteTurn(before, key, msgs)).state.status;
            status == if exists i :: 0 <= i < |msgs| && msgs[i].ReplyFrom? then Idle else Writing
  {
    var s := Run(n, before).state.(status := Writing);
    WriteSent(n, before, key, msgs);
    if NoReply(msgs) {
      StillWriting(s, msgs);
    } else {
      var p := FirstReply(msgs);
      EndsAtReply(s, msgs, p);
      IdleStaysIdle(s, msgs, p + 1, |msgs|);
      assert msgs[..|msgs|] == msgs;
    }
  }

  /** At its first reply every slot is blank and the leading guidance is what it was. */
  lemma {:induction false} WriteResetsInRun(n: nat, before: seq<Event>, key: KeyHash, msgs: seq<Incoming>)
    requires CanSend(n, before, key) && FromReplicas(n, msgs)
    requires msgs != [] && NoReply(msgs[..|msgs| - 1]) && msgs[|msgs| - 1].ReplyFrom?
    ensures Run(n, WriteTurn(before, key, msgs)).state
            == ClientState(Idle, seq(n, _ => Guidance(0, 0, [])), Run(n, before).state.leading)
  {
    WriteSent(n, before, key, msgs);
    EndsAtReply(Run(n, before).state.(status := Writing), msgs, |msgs| - 1);
    assert msgs[..|msgs|] == msgs;
    assert Blank(n) == seq(n, _ => Guidance(0, 0, []));
  }

  /** Without a ticket, or with an operation outstanding, the client's turn to send changes nothing. */
  lemma NothingToSend(n: nat, before: seq<Event>, key: KeyHash, isRead: bool, hasTicket: bool)
    requires !Run(n, before).aborted && (Run(n, before).state.status != Idle || !hasTicket)
    ensures Run(n, before + [Send(key, isRead, hasTicket)]).state == Run(n, before).state
    ensures !Run(n, before + [Send(key, isRead, hasTicket)]).aborted
  {
    RunOneMore(n, before, Send(key, isRead, hasTicket));
  }

  // ---- The first read ----

  // Every replica's answer to the request sent on connecting.
  function Greetings(n: nat, guide: Guidance): seq<Incoming>
  {
    seq(n, i requires 0 <= i < n => GuidanceFrom(i, guide))
  }

  function SetUpRun(n: nat, guide: Guidance): seq<Event>
  {
    Arrivals(Greetings(n, guide)) + [Setup]
  }

  function Filled(n: nat, guide: Guidance): (slots: seq<Guidance>)
    ensures |slots| == n && forall i :: 0 <= i < n ==> slots[i] == guide
  {
    seq(n, i requires 0 <= i < n => guide)
  }

  lemma {:induction false} GreetingsKept(s: ClientState, n: nat, guide: Guidance)
    requires n <= |s.collection| && s.status == Init
    ensures FromReplicas(|s.collection|, Greetings(n, guide))
    ensures ReceiveAll(s, Greetings(n, guide)) == s.(collection := Filled(n, guide) + s.collection[n..])
  {
    if n == 0 {
      assert Filled(0, guide) + s.collection[0..] == s.collection;
    } else {
      GreetingsKept(s, n - 1, guide);
      assert Greetings(n, guide)[..n - 1] == Greetings(n - 1, guide);
      assert (Filled(n - 1, guide) + s.collection[n - 1..])[n - 1 := guide] == Filled(n, guide) + s.collection[n..];
    }
  }

  lemma SetUpFilled(n: nat, guide: Guidance)
    requires n >= 1 && guide.epoch != 0
    ensures SetUp(ClientState(Init, Filled(n, guide), NO_GUIDANCE)) == ClientState(Idle, Filled(n, guide), guide)
  {
  }

  lemma {:induction false} GreetingsDone(n: nat, guide: Guidance)
    ensures Run(n, Arrivals(Greetings(n, guide)))
            == Running(ClientState(Init, Filled(n, guide), NO_GUIDANCE), false, false)
  {
    GreetingsKept(Initial(n).state, n, guide);
    ArrivalsReceived(n, [], Greetings(n, guide));
    assert [] + Arrivals(Greetings(n, guide)) == Arrivals(Greetings(n, guide));
    assert Filled(n, guide) + Initial(n).state.collection[n..] == Filled(n, guide);
  }

  lemma {:induction false} SetUpDone(n: nat, guide: Guidance)
    requires n >= 1 && guide.epoch != 0
    ensures Run(n, SetUpRun(n, guide)) == Running(ClientState(Idle, Filled(n, guide), guide), false, false)
  {
    GreetingsDone(n, guide);
    RunOneMore(n, Arrivals(Greetings(n, guide)), Setup);
    SetUpFilled(n, guide);
  }

  lemma {:induction false} OwnReplyIsEnough(n: nat, guide: Guidance, rid: nat)
    requires n >= 2 && guide.epoch != 0 && rid < n
    ensures FinishesEarly(ClientState(Reading, Filled(n, guide), guide),
                          [ReplyFrom(rid, guide)], 0)
  {
    var s := ClientState(Reading, Filled(n, guide), guide);
    var reply := [ReplyFrom(rid, guide)];
    OverlayMore(s.collection, [], reply[0]);
    assert [] + reply == reply;
    assert Overlay(s.collection, reply) == s.collection;
    assert Carrying(s.collection, guide.epoch) == Sets.Below(n);
    FinishesAtTheEnd(s, reply, 0);
    assert Responders(reply, guide.epoch) <= {rid};
    Sets.SubsetSize(Responders(reply, guide.epoch), {rid});
  }

  /** The set-up leaves every slot filled, so with two replicas or more the first read of every client ends on its own
      reply, confirmed by no other replica. */
  lemma FirstReadConfirmsItself(n: nat, guide: Guidance, key: KeyHash)
    requires n >= 2 && guide.epoch != 0 && 0 <= guide.NodeFor(KeyPos(key)) < n
    ensures var reply := [ReplyFrom(guide.NodeFor(KeyPos(key)), guide)];
            && CanSend(n, SetUpRun(n, guide), key)
            && FinishesEarly(Run(n, SetUpRun(n, guide)).state.(status := Reading), reply, 0)
            && Run(n, Turn(SetUpRun(n, guide), key, reply)).state.status == Idle
  {
    var rid := guide.NodeFor(KeyPos(key));
    SetUpDone(n, guide);
    OwnReplyIsEnough(n, guide, rid);
    ReadSent(n, SetUpRun(n, guide), key, [ReplyFrom(rid, guide)]);
  }

  // ---- Where operations go ----

  predicate AllSay(events: seq<Event>, guide: Guidance)
  {
    forall i :: 0 <= i < |events| ==> events[i].Arrives? ==> events[i].msg.guide == guide
  }

  ghost predicate Follows(r: Running, guide: Guidance)
  {
    && (forall i :: 0 <= i < |r.state.collection| ==>
          r.state.collection[i] == guide || r.state.collection[i] == NO_GUIDANCE)
    && (r.state.status != Init ==> r.state.leading == guide)
    && !r.aborted
  }

  lemma ReceiveFollows(s: ClientState, msg: Incoming)
    requires msg.id < |s.collection|
    ensures |Receive(s, msg).collection| == |s.collection|
    ensures forall i :: 0 <= i < |s.collection| ==>
              Receive(s, msg).collection[i] in {s.collection[i], msg.guide, NO_GUIDANCE}
    ensures Receive(s, msg).leading == s.leading && (s.status == Init <==> Receive(s, msg).status == Init)
  {
  }

  lemma StepFollows(r: Running, ev: Event, guide: Guidance)
    requires Follows(r, guide) && guide.epoch != 0 && forall key :: guide.NodeFor(KeyPos(key)) != -1
    requires ev.Arrives? ==> ev.msg.guide == guide
    ensures Follows(Step(r, ev), guide)
  {
    if ev.Arrives? && ev.msg.id < |r.state.collection| {
      ReceiveFollows(r.state, ev.msg);
    }
  }

  lemma {:induction false} RunFollows(n: nat, events: seq<Event>, guide: Guidance)
    requires AllSay(events, guide) && guide.epoch != 0 && forall key :: guide.NodeFor(KeyPos(key)) != -1
    ensures Follows(Run(n, events), guide)
  {
    if events == [] {
    } else {
      var front := events[..|events| - 1];
      RunFollows(n, front, guide);
      StepFollows(Run(n, front), events[|events| - 1], guide);
    }
  }

  /** When all guidance that arrives is the replicas' initial one, a client that is ready to send has it as its leading
      guidance, finds an owner for every key, and sends the operation to the one replica that owns the key's group. */
  lemma {:induction false} OperationsReachTheOwner(n: nat, events: seq<Event>, key: KeyHash)
    requires 1 <= n <= KEY_SPACE && AllSay(events, InitialGuidance(n, KEY_SPACE))
    ensures var r := Run(n, events);
            && !r.aborted
            && (r.state.status == Idle ==>
                  && r.state.leading == InitialGuidance(n, KEY_SPACE)
                  && r.state.leading.NodeFor(KeyPos(key)) == Cluster.OwnerOf(n, MorphlingSteps.GroupOf(key)))
  {
    forall k: KeyHash
      ensures InitialGuidance(n, KEY_SPACE).NodeFor(KeyPos(k)) != -1
    {
      EveryKeyHasOneOwner(n, k);
    }
    RunFollows(n, events, InitialGuidance(n, KEY_SPACE));
    BackToByte(KeyPos(key));
  }

  lemma BackToByte(pos: bv8)
    ensures (pos as nat) as bv8 == pos
  {
  }
}
