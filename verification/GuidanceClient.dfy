/** The client that confirms each read with a quorum of guidance (app/client2.cpp): its states, the check
    of one turn's guidance, and what a read needs to finish. */
module GuidanceClient {
  import Sets
  import opened Routing
  import opened Messages
  import opened EntryVotes

  datatype Status = Init | Reading | WaitingGuidance | Writing | Idle

  // One slot per replica; a slot nobody has filled since the last reset has epoch 0.
  datatype ClientState = ClientState(status: Status, collection: seq<Guidance>, leading: Guidance)

  const NO_GUIDANCE := Guidance(0, 0, [])

  function Blank(n: nat): seq<Guidance>
  {
    seq(n, i => NO_GUIDANCE)
  }

  // Slots that carry this epoch.
  function Carrying(collection: seq<Guidance>, epoch: nat): set<nat>
  {
    set i | i in Sets.Below(|collection|) && collection[i].epoch == epoch
  }

  // A majority of slots agree with the leading guidance and none is ahead of it.
  predicate QuorumAgrees(collection: seq<Guidance>, epoch: nat)
  {
    && epoch != 0
    && (forall i :: 0 <= i < |collection| ==> collection[i].epoch <= epoch)
    && 2 * |Carrying(collection, epoch)| > |collection|
  }

  // What arrives on the connection to replica `id`.
  datatype Incoming =
    | GuidanceFrom(id: nat, guide: Guidance)
    | ReplyFrom(id: nat, guide: Guidance)

  function Confirm(s: ClientState): ClientState
  {
    if QuorumAgrees(s.collection, s.leading.epoch)
    then ClientState(Idle, Blank(|s.collection|), s.leading)
    else s.(status := WaitingGuidance)
  }

  function Receive(s: ClientState, ev: Incoming): ClientState
    requires ev.id < |s.collection|
  {
    match ev
    case GuidanceFrom(id, guide) =>
      var s1 := s.(collection := s.collection[id := guide]);
      if s.status == WaitingGuidance then Confirm(s1) else s1
    case ReplyFrom(id, guide) =>
      if s.status == Reading then Confirm(s.(collection := s.collection[id := guide]))
      else if s.status == Writing then ClientState(Idle, Blank(|s.collection|), s.leading)
      else s
  }

  // The client after its turn to send came; without a ticket, or when it is busy, nothing is sent.
  function AfterSend(s: ClientState, isRead: bool, hasTicket: bool): ClientState
  {
    if s.status == Idle && hasTicket then s.(status := if isRead then Reading else Writing) else s
  }

  // Every slot has the same epoch, and it is not 0.
  predicate Uniform(collection: seq<Guidance>)
  {
    && collection != [] && collection[0].epoch != 0
    && forall i :: 0 <= i < |collection| ==> collection[i].epoch == collection[0].epoch
  }

  function SetUp(s: ClientState): ClientState
  {
    if Uniform(s.collection) then s.(status := Idle, leading := s.collection[0]) else s
  }

  // What the client sends for one operation.
  datatype Request = OperationTo(id: nat, isRead: bool) | GetGuidanceTo(id: nat)

  function GuidanceRequests(n: nat, except: int): seq<Request>
  {
    if n == 0 then []
    else GuidanceRequests(n - 1, except) + if n - 1 == except then [] else [GetGuidanceTo(n - 1)]
  }

  // ---- The client ----

  // The number of slots with each epoch that occurs.
  ghost predicate Counts(votes: map<nat, nat>, collection: seq<Guidance>)
  {
    forall e: nat :: if e in votes then votes[e] == |Carrying(collection, e)| > 0 else Carrying(collection, e) == {}
  }

  lemma CarryingMore(front: seq<Guidance>, g: Guidance, e: nat)
    ensures Carrying(front + [g], e) == Carrying(front, e) + if g.epoch == e then {|front|} else {}
    ensures |Carrying(front + [g], e)| == |Carrying(front, e)| + if g.epoch == e then 1 else 0
  {
    var a, b := Carrying(front + [g], e), Carrying(front, e);
    forall i: nat
      ensures i in a <==> i in b || (i == |front| && g.epoch == e)
    {
    }
    assert |front| !in b;
    if g.epoch == e {
      assert a == b + {|front|};
    } else {
      assert a == b;
    }
  }

  lemma CountsMore(votes: map<nat, nat>, front: seq<Guidance>, g: Guidance)
    requires Counts(votes, front)
    ensures Counts(votes[g.epoch := (if g.epoch in votes then votes[g.epoch] else 0) + 1], front + [g])
  {
    var after := votes[g.epoch := (if g.epoch in votes then votes[g.epoch] else 0) + 1];
    forall e: nat
      ensures if e in after then after[e] == |Carrying(front + [g], e)| > 0 else Carrying(front + [g], e) == {}
    {
      CarryingMore(front, g, e);
      assert if e in votes then votes[e] == |Carrying(front, e)| else Carrying(front, e) == {};
    }
  }

  lemma CountsNext(votes: map<nat, nat>, collection: seq<Guidance>, i: nat)
    requires i < |collection| && Counts(votes, collection[..i])
    ensures var e := collection[i].epoch;
            Counts(votes[e := (if e in votes then votes[e] else 0) + 1], collection[..i + 1])
  {
    CountsMore(votes, collection[..i], collection[i]);
    assert collection[..i + 1] == collection[..i] + [collection[i]];
  }

  lemma CarryingNext(collection: seq<Guidance>, i: nat, e: nat)
    requires i < |collection|
    ensures |Carrying(collection[..i + 1], e)|
            == |Carrying(collection[..i], e)| + if collection[i].epoch == e then 1 else 0
  {
    CarryingMore(collection[..i], collection[i], e);
    assert collection[..i + 1] == collection[..i] + [collection[i]];
  }

  method CountEpochs(collection: seq<Guidance>) returns (votes: map<nat, nat>)
    ensures Counts(votes, collection)
  {
    votes := map[];
    for i := 0 to |collection|
      invariant Counts(votes, collection[..i])
    {
      CountsNext(votes, collection, i);
      var epoch := collection[i].epoch;
      votes := votes[epoch := (if epoch in votes then votes[epoch] else 0) + 1];
    }
    assert collection[..|collection|] == collection;
  }

  method CountSlots(collection: seq<Guidance>, epoch: nat) returns (count: nat)
    ensures count == |Carrying(collection, epoch)|
  {
    count := 0;
    for i := 0 to |collection|
      invariant count == |Carrying(collection[..i], epoch)|
    {
      CarryingNext(collection, i, epoch);
      if collection[i].epoch == epoch {
        count := count + 1;
      }
    }
    assert collection[..|collection|] == collection;
  }

  // The first slot whose epoch no other exceeds.
  function FirstGreatest(collection: seq<Guidance>): (at: nat)
    requires collection != []
    ensures at < |collection|
    ensures forall j :: 0 <= j < |collection| ==> collection[j].epoch <= collection[at].epoch
    ensures forall j :: 0 <= j < at ==> collection[j].epoch < collection[at].epoch
  {
    var last := |collection| - 1;
    if last == 0 then 0
    else
      var at := FirstGreatest(collection[..last]);
      if collection[last].epoch > collection[at].epoch then last else at
  }

  lemma FirstGreatestIs(collection: seq<Guidance>, at: nat)
    requires at < |collection|
    requires forall j :: 0 <= j < |collection| ==> collection[j].epoch <= collection[at].epoch
    requires forall j :: 0 <= j < at ==> collection[j].epoch < collection[at].epoch
    ensures FirstGreatest(collection) == at
  {
  }

  lemma {:induction false} HasGreatest(s: set<nat>) returns (top: nat)
    requires s != {}
    ensures top in s && forall e <- s :: e <= top
  {
    var x :| x in s;
    if s == {x} {
      top := x;
    } else {
      var rest := HasGreatest(s - {x});
      top := if x > rest then x else rest;
      assert forall e <- s :: e == x || e in s - {x};
    }
  }

  class Client {
    const n: nat
    const quorum: nat
    var status: Status
    var collection: seq<Guidance>
    var leading: Guidance
    var finishAllMsg: bool

    ghost predicate Valid()
      reads this
    {
      n >= 1 && quorum == Quorum(n) && |collection| == n
    }

    ghost function State(): ClientState
      reads this
    {
      ClientState(status, collection, leading)
    }

    constructor (replicas: nat)
      requires replicas >= 1
      ensures Valid() && n == replicas && State() == ClientState(Init, Blank(replicas), NO_GUIDANCE) && !finishAllMsg
    {
      n := replicas;
      quorum := replicas / 2 + 1;
      status, collection, leading := Init, Blank(replicas), NO_GUIDANCE;
      finishAllMsg := false;
    }

    /** True iff the leading epoch is not zero, no collected epoch exceeds it and a majority of slots equal it. */
    method CheckGuidanceQuorum() returns (ok: bool)
      requires Valid()
      ensures ok <==>
                && leading.epoch != 0
                && (forall i :: 0 <= i < n ==> collection[i].epoch <= leading.epoch)
                && 2 * |Carrying(collection, leading.epoch)| > n
    {
      if leading.epoch == 0 {
        return false;
      }
      var votes := CountEpochs(collection);
      assert 0 in Carrying(collection, collection[0].epoch);
      ghost var _ := HasGreatest(votes.Keys);
      var top :| top in votes && forall e <- votes.Keys :: e <= top;
      forall i | 0 <= i < |collection|
        ensures collection[i].epoch <= top
      {
        assert i in Carrying(collection, collection[i].epoch);
      }
      assert exists i :: i in Carrying(collection, top);
      if top == 0 || leading.epoch != top {
        assert Carrying(collection, leading.epoch) == {} || top > leading.epoch || top == 0;
        return false;
      }
      return votes[top] >= quorum;
    }

    /** The first slot with the greatest epoch becomes the leading guidance if a quorum shares that epoch. */
    method UpdateLeadingGuidance() returns (ok: bool)
      requires Valid()
      modifies this`leading
      ensures Valid()
      ensures var first := collection[FirstGreatest(collection)];
              && (ok <==> 2 * |Carrying(collection, first.epoch)| > n)
              && leading == (if ok then first else old(leading))
    {
      var top, topAt := 0, 0;
      for i := 0 to |collection|
        invariant topAt < |collection| && (collection[topAt].epoch == top || (top == 0 && topAt == 0))
        invariant forall j :: 0 <= j < i ==> collection[j].epoch <= top
        invariant forall j :: 0 <= j < topAt ==> collection[j].epoch < top
      {
        if collection[i].epoch > top {
          top, topAt := collection[i].epoch, i;
        }
      }
      FirstGreatestIs(collection, topAt);
      var count := CountSlots(collection, top);
      ok := count >= quorum;
      if ok {
        leading := collection[topAt];
      }
    }

    method HasUniformGuidance() returns (ok: bool)
      requires Valid()
      ensures ok <==> Uniform(collection)
    {
      var first := collection[0].epoch;
      if first == 0 {
        return false;
      }
      for i := 0 to |collection|
        invariant forall j :: 0 <= j < i ==> collection[j].epoch == first
      {
        if collection[i].epoch != first {
          return false;
        }
      }
      return true;
    }

    // Ready to send once every slot has the same epoch; the source aborts if no quorum shares it.
    method SetUpOne() returns (ok: bool)
      requires Valid()
      modifies this`leading, this`status
      ensures Valid() && State() == SetUp(old(State())) && (ok <==> Uniform(collection))
    {
      ok := HasUniformGuidance();
      if ok {
        UniformLeads(collection);
        var led := UpdateLeadingGuidance();
        assert led;
        status := Idle;
      }
    }

    method SetGuidance(id: nat, guide: Guidance)
      requires Valid() && id < n
      modifies this`collection
      ensures Valid() && State() == old(State()).(collection := old(collection)[id := guide])
    {
      collection := collection[id := guide];
    }

    method ResetTurnCollection()
      requires Valid()
      modifies this`collection
      ensures Valid() && collection == Blank(n)
    {
      collection := Blank(n);
    }

    /** Sends one operation if the client is idle and a ticket is left: to the owner of the key, and for a
        read a request for guidance to every other replica.  The source aborts when no node owns the key. */
    method OneSend(keyHash: KeyHash, isRead: bool, hasTicket: bool) returns (sends: seq<Request>)
      requires Valid() && (status == Idle && hasTicket ==> leading.NodeFor(KeyPos(keyHash)) != -1)
      modifies this`status, this`finishAllMsg
      ensures Valid() && State() == AfterSend(old(State()), isRead, hasTicket)
      ensures old(status) != Idle || !hasTicket ==> sends == []
      ensures old(status) == Idle && hasTicket ==>
                var rid := leading.NodeFor(KeyPos(keyHash));
                sends == [OperationTo(rid, isRead)] + if isRead then GuidanceRequests(n, rid) else []
      ensures finishAllMsg == (old(finishAllMsg) || (old(status) == Idle && !hasTicket))
    {
      sends := [];
      if status != Idle {
        return;
      }
      if !hasTicket {
        finishAllMsg := true;
        return;
      }
      var rid := leading.MapNodeId(KeyPos(keyHash));
      sends := [OperationTo(rid, isRead)];
      if isRead {
        status := Reading;
        for id := 0 to n
          invariant sends == [OperationTo(rid, isRead)] + GuidanceRequests(id, rid)
        {
          if id != rid {
            sends := sends + [GetGuidanceTo(id)];
          }
        }
      } else {
        status := Writing;
      }
    }

    method HandleReply(ev: Incoming)
      requires Valid() && ev.id < n
      modifies this
      ensures Valid() && State() == Receive(old(State()), ev)
    {
      match ev
      case GuidanceFrom(id, guide) =>
        SetGuidance(id, guide);
        if status == WaitingGuidance {
          var ok := CheckGuidanceQuorum();
          if ok {
            ResetTurnCollection();
            status := Idle;
          }
        }
      case ReplyFrom(id, guide) =>
        if status == Reading {
          SetGuidance(id, guide);
          var ok := CheckGuidanceQuorum();
          if ok {
            ResetTurnCollection();
            status := Idle;
          } else {
            status := WaitingGuidance;
          }
        } else if status == Writing {
          ResetTurnCollection();
          status := Idle;
        }
    }
  }

  // A quorum always shares a uniform epoch, and the first slot is the first to have it.
  lemma UniformLeads(collection: seq<Guidance>)
    requires Uniform(collection)
    ensures FirstGreatest(collection) == 0
    ensures 2 * |Carrying(collection, collection[0].epoch)| > |collection|
  {
    FirstGreatestIs(collection, 0);
    assert Carrying(collection, collection[0].epoch) == Sets.Below(|collection|);
  }

  /** Setting up changes no slot; when all have the same epoch, not 0, the client becomes idle and is led by the first
      slot. */
  lemma SetUpTakesFirstSlot(s: ClientState)
    requires s.collection != []
    ensures SetUp(s).collection == s.collection
    ensures Uniform(s.collection) ==> SetUp(s).status == Idle && SetUp(s).leading == s.collection[0]
    ensures !Uniform(s.collection) ==> SetUp(s) == s
    ensures Uniform(s.collection) <==>
              forall i :: 0 <= i < |s.collection| ==>
                s.collection[i].epoch != 0 && s.collection[i].epoch == s.collection[|s.collection| - 1].epoch
  {
  }

  /** The check after every turn of the event loop: the clients are set up in order, up to the first that is not
      ready. */
  method CheckSetup(clients: seq<Client>) returns (ready: bool)
    requires forall i :: 0 <= i < |clients| ==> clients[i].Valid()
    requires forall i, j :: 0 <= i < j < |clients| ==> clients[i] != clients[j]
    modifies clients
    ensures ready <==> forall i :: 0 <= i < |clients| ==> old(Uniform(clients[i].collection))
    ensures forall i :: 0 <= i < |clients| ==>
              && clients[i].Valid()
              && clients[i].State()
                 == if forall j :: 0 <= j <= i ==> old(Uniform(clients[j].collection))
                    then SetUp(old(clients[i].State())) else old(clients[i].State())
  {
    for k := 0 to |clients|
      invariant forall i :: 0 <= i < |clients| ==> clients[i].Valid()
      invariant forall i :: 0 <= i < k ==> old(Uniform(clients[i].collection))
      invariant forall i :: 0 <= i < k ==> clients[i].State() == SetUp(old(clients[i].State()))
      invariant forall i :: k <= i < |clients| ==> clients[i].State() == old(clients[i].State())
    {
      var ok := clients[k].SetUpOne();
      if !ok {
        return false;
      }
    }
    return true;
  }

  /** With the guidance the replicas start from, every operation goes to the one replica that owns its key. */
  lemma {:induction false} OperationsGoToTheOwner(n: nat, keyHash: KeyHash)
    requires 1 <= n <= KEY_SPACE
    ensures var rid := InitialGuidance(n, KEY_SPACE).NodeFor(KeyPos(keyHash));
            && 0 <= rid < n
            && (forall i :: Owns(InitialGuidance(n, KEY_SPACE), i, KeyPos(keyHash)) <==> i == rid)
            && (forall id: nat :: GetGuidanceTo(id) in GuidanceRequests(n, rid) <==> id < n && id != rid)
            && |GuidanceRequests(n, rid)| == n - 1
  {
    EveryKeyHasOneOwner(n, keyHash);
    RequestsToOthers(n, InitialGuidance(n, KEY_SPACE).NodeFor(KeyPos(keyHash)));
  }

  lemma {:induction false} RequestsToOthers(n: nat, except: int)
    ensures forall id: nat :: GetGuidanceTo(id) in GuidanceRequests(n, except) <==> id < n && id != except
    ensures |GuidanceRequests(n, except)| == if 0 <= except < n then n - 1 else n
  {
    if n == 0 {
    } else {
      RequestsToOthers(n - 1, except);
    }
  }

  // ---- One read, from the moment it was sent ----

  function ReceiveAll(s: ClientState, events: seq<Incoming>): (s': ClientState)
    requires forall i :: 0 <= i < |events| ==> events[i].id < |s.collection|
    ensures |s'.collection| == |s.collection| && s'.leading == s.leading
  {
    if events == [] then s
    else Receive(ReceiveAll(s, events[..|events| - 1]), events[|events| - 1])
  }

  // Each slot with the last guidance to have come in on its connection.
  function Overlay(collection: seq<Guidance>, events: seq<Incoming>): (r: seq<Guidance>)
    requires forall i :: 0 <= i < |events| ==> events[i].id < |collection|
    ensures |r| == |collection|
  {
    if events == [] then collection
    else
      var last := events[|events| - 1];
      Overlay(collection, events[..|events| - 1])[last.id := last.guide]
  }

  // The operation's own reply comes p-th; everything else is guidance.
  predicate OneTurn(n: nat, events: seq<Incoming>, p: nat)
  {
    && p < |events| && events[p].ReplyFrom?
    && forall i :: 0 <= i < |events| ==> events[i].id < n && (events[i].ReplyFrom? ==> i == p)
  }

  // After k events of the turn, the last of them at or after the reply, a quorum agrees.
  predicate ConfirmedAt(collection: seq<Guidance>, epoch: nat, events: seq<Incoming>, p: nat, k: nat)
    requires k <= |events| && forall i :: 0 <= i < |events| ==> events[i].id < |collection|
  {
    p < k && QuorumAgrees(Overlay(collection, events[..k]), epoch)
  }

  lemma TurnStep(s: ClientState, events: seq<Incoming>, p: nat, k: nat)
    requires s.status == Reading && OneTurn(|s.collection|, events, p) && k < |events|
    requires ReceiveAll(s, events[..k])
             == ClientState(if k <= p then Reading else WaitingGuidance, Overlay(s.collection, events[..k]), s.leading)
    ensures if ConfirmedAt(s.collection, s.leading.epoch, events, p, k + 1)
            then ReceiveAll(s, events[..k + 1]).status == Idle
            else ReceiveAll(s, events[..k + 1])
                 == ClientState(if k + 1 <= p then Reading else WaitingGuidance,
                                Overlay(s.collection, events[..k + 1]), s.leading)
  {
    assert events[..k + 1][..k] == events[..k];
  }

  lemma {:induction false} IdleStaysIdle(s: ClientState, events: seq<Incoming>, j: nat, k: nat)
    requires j <= k <= |events| && forall i :: 0 <= i < |events| ==> events[i].id < |s.collection|
    requires ReceiveAll(s, events[..j]).status == Idle
    ensures ReceiveAll(s, events[..k]).status == Idle
  {
    if j == k {
    } else {
      IdleStaysIdle(s, events, j, k - 1);
      assert events[..k][..k - 1] == events[..k - 1];
    }
  }

  // As long as no prefix was confirmed the client is still collecting.
  lemma {:induction false} StillCollecting(s: ClientState, events: seq<Incoming>, p: nat, k: nat)
    requires s.status == Reading && OneTurn(|s.collection|, events, p) && k <= |events|
    requires forall j: nat :: j <= k ==> !ConfirmedAt(s.collection, s.leading.epoch, events, p, j)
    ensures ReceiveAll(s, events[..k])
            == ClientState(if k <= p then Reading else WaitingGuidance, Overlay(s.collection, events[..k]), s.leading)
  {
    if k == 0 {
      assert events[..0] == [];
    } else {
      StillCollecting(s, events, p, k - 1);
      TurnStep(s, events, p, k - 1);
    }
  }

  lemma {:induction false} FirstConfirmed(s: ClientState, events: seq<Incoming>, p: nat, k: nat) returns (first: nat)
    requires k <= |events| && forall i :: 0 <= i < |events| ==> events[i].id < |s.collection|
    requires ConfirmedAt(s.collection, s.leading.epoch, events, p, k)
    ensures first <= k && ConfirmedAt(s.collection, s.leading.epoch, events, p, first)
    ensures forall j: nat :: j < first ==> !ConfirmedAt(s.collection, s.leading.epoch, events, p, j)
  {
    if j: nat :| j < k && ConfirmedAt(s.collection, s.leading.epoch, events, p, j) {
      first := FirstConfirmed(s, events, p, j);
    } else {
      first := k;
    }
  }

  lemma ConfirmedFinishes(s: ClientState, events: seq<Incoming>, p: nat, k: nat)
    requires s.status == Reading && OneTurn(|s.collection|, events, p)
    requires k <= |events| && ConfirmedAt(s.collection, s.leading.epoch, events, p, k)
    ensures ReceiveAll(s, events[..|events|]).status == Idle
  {
    var first := FirstConfirmed(s, events, p, k);
    IdleAtFirst(s, events, p, first);
    IdleStaysIdle(s, events, first, |events|);
  }

  lemma IdleAtFirst(s: ClientState, events: seq<Incoming>, p: nat, first: nat)
    requires s.status == Reading && OneTurn(|s.collection|, events, p)
    requires first <= |events| && ConfirmedAt(s.collection, s.leading.epoch, events, p, first)
    requires forall j: nat :: j < first ==> !ConfirmedAt(s.collection, s.leading.epoch, events, p, j)
    ensures ReceiveAll(s, events[..first]).status == Idle
  {
    assert first > p;
    var before := first - 1;
    assert forall j: nat :: j <= before ==> !ConfirmedAt(s.collection, s.leading.epoch, events, p, j);
    StillCollecting(s, events, p, before);
    TurnStep(s, events, p, before);
  }

  /** When a read finishes: after the events of its turn the client is idle again if and only if, at some
      point from the reply on, a quorum of slots carried the leading epoch and none a greater one, each slot
      holding the last guidance received on its connection since the last reset. */
  lemma {:induction false} ReadFinishesExactlyWhen(s: ClientState, events: seq<Incoming>, p: nat)
    requires s.status == Reading && OneTurn(|s.collection|, events, p)
    ensures ReceiveAll(s, events).status == Idle
            <==> exists k: nat :: k <= |events| && ConfirmedAt(s.collection, s.leading.epoch, events, p, k)
  {
    assert events[..|events|] == events;
    if k: nat :| k <= |events| && ConfirmedAt(s.collection, s.leading.epoch, events, p, k) {
      ConfirmedFinishes(s, events, p, k);
    } else {
      StillCollecting(s, events, p, |events|);
    }
  }

  // Position of the last event on the connection to `id`; -1 when there is none.
  function LastFrom(events: seq<Incoming>, id: nat): (at: int)
    ensures -1 <= at < |events| && (at >= 0 ==> events[at].id == id)
    ensures forall j :: at < j < |events| ==> events[j].id != id
  {
    if events == [] then -1
    else if events[|events| - 1].id == id then |events| - 1
    else LastFrom(events[..|events| - 1], id)
  }

  lemma {:induction false} OverlayIs(collection: seq<Guidance>, events: seq<Incoming>, id: nat)
    requires id < |collection| && forall i :: 0 <= i < |events| ==> events[i].id < |collection|
    ensures Overlay(collection, events)[id]
            == if LastFrom(events, id) == -1 then collection[id] else events[LastFrom(events, id)].guide
  {
    if events == [] || events[|events| - 1].id == id {
    } else {
      OverlayIs(collection, events[..|events| - 1], id);
    }
  }

  /** A read completes: once every replica has answered, in any order and mixed with late guidance of
      earlier turns, and the last word of each replica carries the leading epoch, the client is idle. */
  lemma ReadTurnCompletes(s: ClientState, events: seq<Incoming>, p: nat)
    requires s.status == Reading && s.leading.epoch != 0 && OneTurn(|s.collection|, events, p)
    requires forall id: nat :: id < |s.collection| ==>
               LastFrom(events, id) >= 0 && events[LastFrom(events, id)].guide.epoch == s.leading.epoch
    ensures ReceiveAll(s, events).status == Idle
  {
    var last := Overlay(s.collection, events);
    forall id: nat | id < |last|
      ensures last[id].epoch == s.leading.epoch
    {
      OverlayIs(s.collection, events, id);
    }
    assert Carrying(last, s.leading.epoch) == Sets.Below(|last|);
    FinishesAtTheEnd(s, events, p);
  }

  // A quorum that agrees when everything has arrived is enough.
  lemma {:induction false} FinishesAtTheEnd(s: ClientState, events: seq<Incoming>, p: nat)
    requires s.status == Reading && OneTurn(|s.collection|, events, p)
    requires QuorumAgrees(Overlay(s.collection, events), s.leading.epoch)
    ensures ReceiveAll(s, events).status == Idle
  {
    assert events[..|events|] == events;
    assert ConfirmedAt(s.collection, s.leading.epoch, events, p, |events|);
    ReadFinishesExactlyWhen(s, events, p);
  }

  // ---- Guidance that belongs to an earlier turn ----

  // Replicas that said this epoch during the turn.
  function Responders(events: seq<Incoming>, epoch: nat): set<nat>
  {
    set i | 0 <= i < |events| && events[i].guide.epoch == epoch :: events[i].id
  }

  ghost predicate FinishesEarly(s: ClientState, events: seq<Incoming>, p: nat)
  {
    && OneTurn(|s.collection|, events, p)
    && ReceiveAll(s, events).status == Idle
    && 2 * |Responders(events, s.leading.epoch)| <= |s.collection|
  }

  /** A read can finish although fewer than a quorum of replicas answered in its own turn if and only if there are
      at least two replicas and some slot already carried the leading epoch when it was sent: the turn starts
      without a reset, so guidance left over from before is counted. */
  lemma {:induction false} LateGuidanceCountsExactlyWhen(s: ClientState)
    requires s.status == Reading
    ensures (exists events, p: nat :: FinishesEarly(s, events, p))
            <==> |s.collection| >= 2 && s.leading.epoch != 0 && Carrying(s.collection, s.leading.epoch) != {}
  {
    if |s.collection| >= 2 && s.leading.epoch != 0 && Carrying(s.collection, s.leading.epoch) != {} {
      var left :| left in Carrying(s.collection, s.leading.epoch);
      ShortTurnFinishes(s, left);
    } else {
      forall events, p: nat | OneTurn(|s.collection|, events, p) && ReceiveAll(s, events).status == Idle
        ensures 2 * |Responders(events, s.leading.epoch)| > |s.collection|
      {
        CleanTurnNeedsQuorum(s, events, p);
      }
    }
  }

  // A slot that carries the leading epoch has got it in the turn, unless it had it before.
  lemma {:induction false} CarriedMeansAnswered(collection: seq<Guidance>, epoch: nat, events: seq<Incoming>, p: nat,
                                                k: nat, i: nat)
    requires OneTurn(|collection|, events, p) && p < k <= |events|
    requires i in Carrying(Overlay(collection, events[..k]), epoch)
    requires i !in Carrying(collection, epoch) || |collection| == 1
    ensures i in Responders(events, epoch)
  {
    var front := events[..k];
    OverlayIs(collection, front, i);
    assert front[p].id == events[p].id && (|collection| == 1 ==> events[p].id == i);
    var at := LastFrom(front, i);
    assert at >= 0;
    assert front[at] == events[at];
    Responds(events, epoch, at);
  }

  lemma Responds(events: seq<Incoming>, epoch: nat, at: nat)
    requires at < |events| && events[at].guide.epoch == epoch
    ensures events[at].id in Responders(events, epoch)
  {
  }

  lemma {:induction false} CleanTurnNeedsQuorum(s: ClientState, events: seq<Incoming>, p: nat)
    requires s.status == Reading && OneTurn(|s.collection|, events, p) && ReceiveAll(s, events).status == Idle
    requires Carrying(s.collection, s.leading.epoch) == {} || s.leading.epoch == 0 || |s.collection| < 2
    ensures 2 * |Responders(events, s.leading.epoch)| > |s.collection|
  {
    ReadFinishesExactlyWhen(s, events, p);
    var k: nat :| k <= |events| && ConfirmedAt(s.collection, s.leading.epoch, events, p, k);
    var carrying := Carrying(Overlay(s.collection, events[..k]), s.leading.epoch);
    forall i | i in carrying
      ensures i in Responders(events, s.leading.epoch)
    {
      CarriedMeansAnswered(s.collection, s.leading.epoch, events, p, k, i);
    }
    Sets.SubsetSize(carrying, Responders(events, s.leading.epoch));
  }

  // The k-th replica other than `left`.
  function Other(left: nat, k: nat): nat
  {
    if k < left then k else k + 1
  }

  // Every replica but `left` speaks up: the first with the operation's reply, and only `length` of them with the
  // leading guidance.
  function ShortTurn(left: nat, lead: Guidance, length: nat, n: nat): seq<Incoming>
  {
    seq(n, k requires 0 <= k < n =>
      if k == 0 then ReplyFrom(Other(left, 0), lead)
      else GuidanceFrom(Other(left, k), if k < length then lead else NO_GUIDANCE))
  }

  lemma ShortTurnEvent(left: nat, lead: Guidance, length: nat, n: nat, k: nat)
    requires k < n && 1 <= length
    ensures ShortTurn(left, lead, length, n)[k].id == Other(left, k) <= n
    ensures ShortTurn(left, lead, length, n)[k].guide == if k < length then lead else NO_GUIDANCE
    ensures ShortTurn(left, lead, length, n)[k].ReplyFrom? <==> k == 0
  {
  }

  // The replicas that answer with the leading guidance: `length` many, not `left`.
  function ShortResponders(left: nat, length: nat): (ids: set<nat>)
    ensures |ids| == length && left !in ids
    ensures forall i: nat :: i in ids <==> i != left && (if i < left then i else i - 1) < length
  {
    if left < length then Sets.Below(length + 1) - {left} else Sets.Below(length)
  }

  // Where in the turn replica i speaks.
  function SpeaksAt(left: nat, i: nat): nat
    requires i != left
  {
    if i < left then i else i - 1
  }

  lemma ShortTurnIsTurn(left: nat, lead: Guidance, length: nat, n: nat)
    requires n >= 1 && 1 <= length
    ensures OneTurn(n + 1, ShortTurn(left, lead, length, n), 0)
  {
    forall k: nat | k < n
      ensures ShortTurn(left, lead, length, n)[k].id < n + 1
      ensures ShortTurn(left, lead, length, n)[k].ReplyFrom? ==> k == 0
    {
      ShortTurnEvent(left, lead, length, n, k);
    }
  }

  lemma LastFromIs(events: seq<Incoming>, id: nat, at: nat)
    requires at < |events| && events[at].id == id && forall j :: 0 <= j < |events| && events[j].id == id ==> j == at
    ensures LastFrom(events, id) == at
  {
  }

  // What a short turn leaves in a slot.
  lemma ShortTurnSlot(collection: seq<Guidance>, lead: Guidance, left: nat, length: nat, i: nat)
    requires 1 <= length < |collection| && i < |collection| && left < |collection|
    requires OneTurn(|collection|, ShortTurn(left, lead, length, |collection| - 1), 0)
    ensures Overlay(collection, ShortTurn(left, lead, length, |collection| - 1))[i]
            == if i == left then collection[i] else if i in ShortResponders(left, length) then lead else NO_GUIDANCE
  {
    var n := |collection| - 1;
    var events := ShortTurn(left, lead, length, n);
    OverlayIs(collection, events, i);
    forall j: nat | j < n
      ensures events[j].id == Other(left, j)
    {
      ShortTurnEvent(left, lead, length, n, j);
    }
    if i == left {
      assert LastFrom(events, i) == -1;
    } else {
      var at := SpeaksAt(left, i);
      ShortTurnEvent(left, lead, length, n, at);
      LastFromIs(events, i, at);
    }
  }

  lemma CarryingAtLeast(slots: seq<Guidance>, epoch: nat, ids: set<nat>)
    requires forall i <- ids :: i < |slots| && slots[i].epoch == epoch
    ensures |Carrying(slots, epoch)| >= |ids|
  {
    Sets.SubsetSize(ids, Carrying(slots, epoch));
  }

  // A short turn leaves no slot ahead of the leading epoch, and one more carrying it than replicas that answered.
  lemma ShortTurnSlots(collection: seq<Guidance>, lead: Guidance, left: nat, length: nat)
    requires 1 <= length < |collection| && left < |collection| && collection[left].epoch == lead.epoch
    requires OneTurn(|collection|, ShortTurn(left, lead, length, |collection| - 1), 0)
    ensures var slots := Overlay(collection, ShortTurn(left, lead, length, |collection| - 1));
            && (forall i :: 0 <= i < |slots| ==> slots[i].epoch <= lead.epoch)
            && |Carrying(slots, lead.epoch)| >= length + 1
  {
    var slots := Overlay(collection, ShortTurn(left, lead, length, |collection| - 1));
    forall i: nat | i < |slots|
      ensures slots[i].epoch <= lead.epoch
      ensures i == left || i in ShortResponders(left, length) ==> slots[i].epoch == lead.epoch
    {
      ShortTurnSlot(collection, lead, left, length, i);
    }
    CarryingAtLeast(slots, lead.epoch, ShortResponders(left, length) + {left});
  }

  lemma ShortTurnResponders(left: nat, lead: Guidance, length: nat, n: nat)
    requires 1 <= length <= n && lead.epoch != 0
    ensures |Responders(ShortTurn(left, lead, length, n), lead.epoch)| <= length
  {
    var events := ShortTurn(left, lead, length, n);
    forall k: nat | k < n && events[k].guide.epoch == lead.epoch
      ensures events[k].id in ShortResponders(left, length)
    {
      ShortTurnEvent(left, lead, length, n, k);
    }
    Sets.SubsetSize(Responders(events, lead.epoch), ShortResponders(left, length));
  }

  lemma {:induction false} ShortTurnFinishes(s: ClientState, left: nat)
    requires s.status == Reading && |s.collection| >= 2 && s.leading.epoch != 0
    requires left in Carrying(s.collection, s.leading.epoch)
    ensures FinishesEarly(s, ShortTurn(left, s.leading, Quorum(|s.collection|) - 1, |s.collection| - 1), 0)
  {
    var length, n := Quorum(|s.collection|) - 1, |s.collection| - 1;
    var events := ShortTurn(left, s.leading, length, n);
    ShortTurnIsTurn(left, s.leading, length, n);
    ShortTurnSlots(s.collection, s.leading, left, length);
    ShortTurnResponders(left, s.leading, length, n);
    FinishesAtTheEnd(s, events, 0);
  }
}
