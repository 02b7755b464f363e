/**
 The hub as the object it is: maps updated in place by Subscribe, Unsubscribe and BroadcastLocal. Each
 method is proved against the functions that the concurrent machine's steps are made of.
 */
module HubObject {
  import opened Common
  import opened RealtimeHub
  import HubGuarantees

  // ---------------------------------------------------------------- what a broadcast does

  ghost predicate HasRoom(s: State, c: ClientId) { c in s.clients && |s.clients[c].queue| < SEND_BUFFER_SIZE }

  /** The members that survive a broadcast that has so far dealt with `done`: the full ones are gone. */
  ghost function Survivors(s: State, conv: ConvId, done: set<ClientId>): set<ClientId> {
    set c | c in Members(s, conv) && (c in done ==> HasRoom(s, c))
  }

  /** Every client among `done` has the event at the end of its queue or, if that was full, is closed. */
  ghost function ClientsAfter(clients: map<ClientId, Client>, delivery: Delivery, done: set<ClientId>)
    : map<ClientId, Client>
  {
    map c | c in clients ::
      if c !in done then clients[c]
      else if |clients[c].queue| < SEND_BUFFER_SIZE then clients[c].(queue := clients[c].queue + [delivery])
      else clients[c].(closes := 1)
  }

  /**
   The hub after an uninterrupted broadcast has dealt with the members `done`, whatever their order:
   those with room have the event at the end of their queue, the full ones are closed and unregistered,
   everyone else is untouched, and the conversation and its subscription go with the last member.
   */
  ghost function Broadcasted(s: State, conv: ConvId, delivery: Delivery, done: set<ClientId>): State
    requires Structure(s) && done <= Members(s, conv)
  {
    var left := Survivors(s, conv, done);
    var offered := s.(clients := ClientsAfter(s.clients, delivery, done));
    if conv !in s.conversations then offered
    else if left != {} then offered.(conversations := s.conversations[conv := left])
    else CloseSub(offered, s.subscriptions[conv]).(conversations := s.conversations - {conv},
                                                   subscriptions := s.subscriptions - {conv})
  }

  /** One more turn of the send loop, as the machine's functions describe it. */
  ghost function Offered(s: State, conv: ConvId, c: ClientId, delivery: Delivery): State
    requires c in s.clients && SubsInRange(s)
  {
    if HasRoom(s, c) then
      s.(clients := s.clients[c := s.clients[c].(queue := s.clients[c].queue + [delivery])])
    else Leave(s, conv, c)
  }

  lemma NextIsStillThere(s: State, conv: ConvId, delivery: Delivery, done: set<ClientId>, c: ClientId)
    requires Structure(s) && done <= Members(s, conv) && c in Members(s, conv) && c !in done
    ensures var t := Broadcasted(s, conv, delivery, done);
      && c in Survivors(s, conv, done) && conv in t.conversations && t.conversations[conv] == Survivors(s, conv, done)
      && t.subs == s.subs && t.subscriptions == s.subscriptions && t.crashed == s.crashed
      && t.Registered(c) && t.clients[c] == s.clients[c] && t.clients[c].Open() && SubsInRange(t)
  {
    assert s.clients[c].Open() <==> s.Registered(c);
    assert c in Survivors(s, conv, done);
  }

  lemma BroadcastedRoom(s: State, conv: ConvId, delivery: Delivery, done: set<ClientId>, c: ClientId)
    requires Structure(s) && done <= Members(s, conv) && c in Members(s, conv) && c !in done && HasRoom(s, c)
    ensures var t := Broadcasted(s, conv, delivery, done);
      c in t.clients && SubsInRange(t) && Offered(t, conv, c, delivery) == Broadcasted(s, conv, delivery, done + {c})
  {
    NextIsStillThere(s, conv, delivery, done, c);
    assert Survivors(s, conv, done + {c}) == Survivors(s, conv, done);
    var t := Broadcasted(s, conv, delivery, done);
    assert Offered(t, conv, c, delivery).clients == Broadcasted(s, conv, delivery, done + {c}).clients;
  }

  lemma OneMoreClosed(t: State, clients: map<ClientId, Client>, delivery: Delivery, done: set<ClientId>, c: ClientId)
    requires c in clients && c !in done && |clients[c].queue| >= SEND_BUFFER_SIZE && clients[c].Open()
    requires t.clients == ClientsAfter(clients, delivery, done)
    ensures c in t.clients && CloseClient(t, c).clients == ClientsAfter(clients, delivery, done + {c})
  {
    assert t.clients[c] == clients[c];
  }

  lemma OneLessSurvivor(s: State, conv: ConvId, done: set<ClientId>, c: ClientId)
    requires !HasRoom(s, c)
    ensures Survivors(s, conv, done + {c}) == Survivors(s, conv, done) - {c}
  {}

  /** Taking the last survivor off the hub's map drops the conversation; taking another leaves the rest. */
  lemma OneLessMember(s: State, conv: ConvId, delivery: Delivery, done: set<ClientId>, c: ClientId)
    requires Structure(s) && done <= Members(s, conv) && c in Members(s, conv) && c !in done && !HasRoom(s, c)
    ensures var left := Survivors(s, conv, done) - {c};
      Broadcasted(s, conv, delivery, done + {c}).conversations
      == if left == {} then s.conversations - {conv} else s.conversations[conv := left]
  {
    OneLessSurvivor(s, conv, done, c);
  }

  lemma BroadcastedFull(s: State, conv: ConvId, delivery: Delivery, done: set<ClientId>, c: ClientId)
    requires Structure(s) && done <= Members(s, conv) && c in Members(s, conv) && c !in done && !HasRoom(s, c)
    ensures var t := Broadcasted(s, conv, delivery, done);
      c in t.clients && SubsInRange(t) && Leave(t, conv, c) == Broadcasted(s, conv, delivery, done + {c})
  {
    NextIsStillThere(s, conv, delivery, done, c);
    OneLessSurvivor(s, conv, done, c);
    OneLessMember(s, conv, delivery, done, c);
    var t := Broadcasted(s, conv, delivery, done);
    OneMoreClosed(t, s.clients, delivery, done, c);
    var survivors := Survivors(s, conv, done);
    assert t.conversations == s.conversations[conv := survivors];
    assert s.conversations[conv := survivors] - {conv} == s.conversations - {conv};
    assert s.conversations[conv := survivors][conv := survivors - {c}] == s.conversations[conv := survivors - {c}];
  }

  lemma BroadcastedNext(s: State, conv: ConvId, delivery: Delivery, done: set<ClientId>, c: ClientId)
    requires Structure(s) && done <= Members(s, conv) && c in Members(s, conv) && c !in done
    ensures var t := Broadcasted(s, conv, delivery, done);
      && t.Registered(c) && t.clients[c] == s.clients[c] && t.clients[c].Open() && SubsInRange(t)
      && Offered(t, conv, c, delivery) == Broadcasted(s, conv, delivery, done + {c})
  {
    NextIsStillThere(s, conv, delivery, done, c);
    if HasRoom(s, c) {
      BroadcastedRoom(s, conv, delivery, done, c);
    } else {
      BroadcastedFull(s, conv, delivery, done, c);
    }
  }

  lemma NothingBroadcasted(s: State, conv: ConvId, delivery: Delivery)
    requires Structure(s)
    ensures Broadcasted(s, conv, delivery, {}) == s
  {
    assert Survivors(s, conv, {}) == Members(s, conv);
    assert forall k <- s.conversations :: s.conversations[k] != {};
  }

  lemma OfferedKeepsStructure(s: State, conv: ConvId, c: ClientId, delivery: Delivery)
    requires Structure(s) && c in s.clients && s.clients[c].conv == conv
    ensures Structure(Offered(s, conv, c, delivery))
  {
    if HasRoom(s, c) {
      var client := s.clients[c].(queue := s.clients[c].queue + [delivery]);
      HubGuarantees.QueueUpdateKeepsStructure(s, c, client);
    } else {
      LeaveKeepsStructure(s, c);
    }
  }

  lemma OneMoreKeepsStructure(s: State, conv: ConvId, delivery: Delivery, done: set<ClientId>, c: ClientId)
    requires Structure(s) && done <= Members(s, conv) && c in Members(s, conv) && c !in done
    requires Structure(Broadcasted(s, conv, delivery, done))
    ensures Structure(Broadcasted(s, conv, delivery, done + {c}))
  {
    assert s.clients[c].conv == conv;
    BroadcastedNext(s, conv, delivery, done, c);
    OfferedKeepsStructure(Broadcasted(s, conv, delivery, done), conv, c, delivery);
  }

  lemma {:induction false} BroadcastedKeepsStructure(s: State, conv: ConvId, delivery: Delivery, done: set<ClientId>)
    requires Structure(s) && done <= Members(s, conv)
    ensures Structure(Broadcasted(s, conv, delivery, done))
    decreases done
  {
    if done == {} {
      NothingBroadcasted(s, conv, delivery);
    } else {
      var c :| c in done;
      var fewer := done - {c};
      assert fewer + {c} == done;
      BroadcastedKeepsStructure(s, conv, delivery, fewer);
      OneMoreKeepsStructure(s, conv, delivery, fewer, c);
    }
  }

  /** One broadcast for every payload that decodes, in order. */
  ghost function Forwarded(s: State, conv: ConvId, g: Gen, payloads: seq<Payload>): (t: State)
    requires Structure(s)
    ensures Structure(t)
  {
    if payloads == [] then s
    else
      var n := |payloads| - 1;
      var t := Forwarded(s, conv, g, payloads[..n]);
      if payloads[n].Malformed? then t
      else
        var delivery := Delivery(g, |Decoded(payloads[..n])|, payloads[n].event);
        BroadcastedKeepsStructure(t, conv, delivery, Members(t, conv));
        Broadcasted(t, conv, delivery, Members(t, conv))
  }

  lemma BroadcastReaches(s: State, conv: ConvId, delivery: Delivery, c: ClientId)
    requires Structure(s) && c in Members(s, conv) && HasRoom(s, c)
    ensures var t := Broadcasted(s, conv, delivery, Members(s, conv));
      c in Members(t, conv) && c in t.clients && t.clients[c].queue == s.clients[c].queue + [delivery]
  {
    assert c in Survivors(s, conv, Members(s, conv));
  }

  lemma EventsSnoc(log: seq<Delivery>, d: Delivery)
    ensures HubGuarantees.Events(log + [d]) == HubGuarantees.Events(log) + [d.event]
  {}

  /** A member with room for all of them is given every decoded event, in order, and stays. */
  lemma {:induction false} ForwardedReachesMembers(s: State, conv: ConvId, g: Gen, payloads: seq<Payload>, c: ClientId)
    requires Structure(s) && c in Members(s, conv)
    requires |s.clients[c].queue| + |Decoded(payloads)| <= SEND_BUFFER_SIZE
    ensures var t := Forwarded(s, conv, g, payloads);
      && c in Members(t, conv) && c in t.clients
      && HubGuarantees.Events(t.clients[c].queue) == HubGuarantees.Events(s.clients[c].queue) + Decoded(payloads)
  {
    if payloads != [] {
      var n := |payloads| - 1;
      ForwardedReachesMembers(s, conv, g, payloads[..n], c);
      var t := Forwarded(s, conv, g, payloads[..n]);
      assert |HubGuarantees.Events(t.clients[c].queue)| == |t.clients[c].queue|;
      if payloads[n].Decodable? {
        var delivery := Delivery(g, |Decoded(payloads[..n])|, payloads[n].event);
        BroadcastReaches(t, conv, delivery, c);
        EventsSnoc(t.clients[c].queue, delivery);
      }
    }
  }

  // ---------------------------------------------------------------- the machine, when nothing interrupts

  /** A forwarder's turn on its next target: the send, and at once the eviction if the queue was full. */
  ghost function Turn(s: State, g: Gen): State {
    var t := Step(s, Send(g));
    if Enabled(t, Evict(g)) then Step(t, Evict(g)) else t
  }

  ghost function Turns(s: State, g: Gen, n: nat): State {
    if n == 0 then s else Turn(Turns(s, g, n - 1), g)
  }

  lemma CloseSubIgnoresPhase(s: State, h: Gen, g: Gen, phase: Phase)
    requires h < |s.subs| && g < |s.subs|
    ensures CloseSub(SetPhase(s, g, phase), h) == SetPhase(CloseSub(s, h), g, phase)
  {
    assert CloseSub(SetPhase(s, g, phase), h).subs == SetPhase(CloseSub(s, h), g, phase).subs;
  }

  lemma LeaveIgnoresPhase(s: State, conv: ConvId, c: ClientId, g: Gen, phase: Phase)
    requires c in s.clients && g < |s.subs| && SubsInRange(s)
    ensures |Leave(s, conv, c).subs| == |s.subs|
    ensures Leave(SetPhase(s, g, phase), conv, c) == SetPhase(Leave(s, conv, c), g, phase)
  {
    if conv in s.conversations && s.conversations[conv] - {c} == {} && conv in s.subscriptions {
      var dropped := if c in s.conversations[conv] then CloseClient(s, c) else s;
      var emptied := dropped.(conversations := s.conversations - {conv});
      CloseSubIgnoresPhase(emptied, s.subscriptions[conv], g, phase);
    }
  }

  /** Forwarder `g` of `b` may take its turn on `c`, and the event is its `delivery`. */
  ghost predicate Ready(b: State, g: Gen, c: ClientId, delivery: Delivery) {
    && g < |b.subs| && SubsInRange(b) && !b.crashed && c in b.clients && b.clients[c].Open()
    && |b.clients[c].queue| <= SEND_BUFFER_SIZE && Consumed(b.subs[g]) != []
    && delivery.gen == g && delivery.index == |Consumed(b.subs[g])| - 1
  }

  lemma TurnWithRoom(s: State, g: Gen, c: ClientId, rest: seq<ClientId>, delivery: Delivery)
    requires Ready(s, g, c, delivery) && HasRoom(s, c)
    ensures var offered := Offered(s, s.subs[g].conv, c, delivery);
      && |offered.subs| == |s.subs|
      && Turn(SetPhase(s, g, Sending(delivery.event, [c] + rest)), g)
         == SetPhase(offered, g, Broadcasting(delivery.event, rest))
  {
    var u := SetPhase(s, g, Sending(delivery.event, [c] + rest));
    assert Consumed(u.subs[g]) == Consumed(s.subs[g]);
    assert ([c] + rest)[1..] == rest;
    assert Step(u, Send(g)).subs == SetPhase(s, g, Broadcasting(delivery.event, rest)).subs;
    assert !Broadcasting(delivery.event, rest).Evicting?;
  }

  lemma TurnWithoutRoom(s: State, g: Gen, c: ClientId, rest: seq<ClientId>, delivery: Delivery)
    requires Ready(s, g, c, delivery) && !HasRoom(s, c)
    ensures var offered := Offered(s, s.subs[g].conv, c, delivery);
      && |offered.subs| == |s.subs|
      && Turn(SetPhase(s, g, Sending(delivery.event, [c] + rest)), g)
         == SetPhase(offered, g, Broadcasting(delivery.event, rest))
  {
    var conv, event := s.subs[g].conv, delivery.event;
    var u := SetPhase(s, g, Sending(event, [c] + rest));
    assert ([c] + rest)[1..] == rest;
    var full := Step(u, Send(g));
    assert full == SetPhase(s, g, Evicting(event, c, rest)) by {
      assert full.subs == SetPhase(s, g, Evicting(event, c, rest)).subs;
    }
    LeaveIgnoresPhase(s, conv, c, g, Evicting(event, c, rest));
    var t := SetPhase(SetPhase(Leave(s, conv, c), g, Evicting(event, c, rest)), g, Broadcasting(event, rest));
    assert t.subs == SetPhase(Leave(s, conv, c), g, Broadcasting(event, rest)).subs;
  }

  lemma TurnIsOffered(s: State, g: Gen, c: ClientId, rest: seq<ClientId>, delivery: Delivery)
    requires Ready(s, g, c, delivery)
    ensures var offered := Offered(s, s.subs[g].conv, c, delivery);
      && |offered.subs| == |s.subs|
      && Turn(SetPhase(s, g, Sending(delivery.event, [c] + rest)), g)
         == SetPhase(offered, g, Broadcasting(delivery.event, rest))
  {
    if HasRoom(s, c) {
      TurnWithRoom(s, g, c, rest, delivery);
    } else {
      TurnWithoutRoom(s, g, c, rest, delivery);
    }
  }

  lemma BroadcastedKeepsForwarder(s: State, conv: ConvId, delivery: Delivery, done: set<ClientId>, g: Gen)
    requires Structure(s) && done <= Members(s, conv) && g < |s.subs|
    ensures var t := Broadcasted(s, conv, delivery, done);
      && t.crashed == s.crashed && SubsInRange(t) && |t.subs| == |s.subs|
      && t.subs[g] == s.subs[g].(closes := t.subs[g].closes) && Consumed(t.subs[g]) == Consumed(s.subs[g])
  {
    var t := Broadcasted(s, conv, delivery, done);
    assert ForwarderOk(s, g);
    assert t.subs[g].payloads[..t.subs[g].next] == s.subs[g].payloads[..s.subs[g].next];
  }

  /** What forwarder `g` is about to put on each of its targets' queues. */
  function Held(s: State, g: Gen): Delivery requires g < |s.subs| && s.subs[g].phase.Holding? {
    var consumed := Consumed(s.subs[g]);
    Delivery(g, if consumed == [] then 0 else |consumed| - 1, s.subs[g].phase.event)
  }

  ghost predicate Selects(s: State, g: Gen, order: seq<ClientId>) {
    Structure(s) && Enabled(s, Snapshot(g, order))
  }

  /** The hub's maps and clients once the first `n` selected clients are dealt with. */
  ghost function Dealt(s: State, g: Gen, order: seq<ClientId>, n: nat): (b: State)
    requires Selects(s, g, order) && n <= |order|
    ensures |b.subs| == |s.subs|
  {
    var done := Elements(order[..n]);
    assert forall c <- done :: c in Elements(order);
    BroadcastedKeepsForwarder(s, s.subs[g].conv, Held(s, g), done, g);
    Broadcasted(s, s.subs[g].conv, Held(s, g), done)
  }

  /** The same with the forwarder's own place in its loop. */
  ghost function Halfway(s: State, g: Gen, order: seq<ClientId>, n: nat): State
    requires Selects(s, g, order) && n <= |order|
  {
    SetPhase(Dealt(s, g, order, n), g, Broadcasting(s.subs[g].phase.event, order[n..]))
  }

  lemma HalfwayFacts(s: State, g: Gen, order: seq<ClientId>, n: nat)
    requires Selects(s, g, order) && n < |order|
    ensures var conv, done, c := s.subs[g].conv, Elements(order[..n]), order[n];
      && Elements(order[..n + 1]) == done + {c} && c !in done && c in Members(s, conv) && done <= Members(s, conv)
      && c in s.clients && |s.clients[c].queue| <= SEND_BUFFER_SIZE && Consumed(s.subs[g]) != []
      && order[n..] == [c] + order[n + 1..]
  {
    assert ForwarderOk(s, g);
    ElementsSnoc(order, n);
    assert order[n] in Elements(order) && forall d <- Elements(order[..n]) :: d in Elements(order);
  }

  lemma BeforeTurn(s: State, g: Gen, order: seq<ClientId>, n: nat)
    requires Selects(s, g, order) && n < |order|
    ensures var b := Dealt(s, g, order, n);
      && Ready(b, g, order[n], Held(s, g)) && b.subs[g].conv == s.subs[g].conv
      && Halfway(s, g, order, n) == SetPhase(b, g, Sending(s.subs[g].phase.event, [order[n]] + order[n + 1..]))
  {
    var conv, delivery := s.subs[g].conv, Held(s, g);
    HalfwayFacts(s, g, order, n);
    BroadcastedNext(s, conv, delivery, Elements(order[..n]), order[n]);
    BroadcastedKeepsForwarder(s, conv, delivery, Elements(order[..n]), g);
  }

  lemma AfterTurn(s: State, g: Gen, order: seq<ClientId>, n: nat)
    requires Selects(s, g, order) && n < |order|
    ensures var b := Dealt(s, g, order, n);
      && order[n] in b.clients && SubsInRange(b)
      && Offered(b, s.subs[g].conv, order[n], Held(s, g)) == Dealt(s, g, order, n + 1)
  {
    HalfwayFacts(s, g, order, n);
    BroadcastedNext(s, s.subs[g].conv, Held(s, g), Elements(order[..n]), order[n]);
  }

  lemma NextTurn(s: State, g: Gen, order: seq<ClientId>, n: nat)
    requires Selects(s, g, order) && n < |order|
    ensures Turn(Halfway(s, g, order, n), g) == Halfway(s, g, order, n + 1)
  {
    BeforeTurn(s, g, order, n);
    AfterTurn(s, g, order, n);
    TurnIsOffered(Dealt(s, g, order, n), g, order[n], order[n + 1..], Held(s, g));
  }

  lemma NoTurnYet(s: State, g: Gen, order: seq<ClientId>)
    requires Selects(s, g, order)
    ensures Halfway(s, g, order, 0) == Step(s, Snapshot(g, order))
  {
    assert Elements(order[..0]) == {} && order[0..] == order;
    NothingBroadcasted(s, s.subs[g].conv, Held(s, g));
  }

  lemma {:induction false} TurnsFollow(path: seq<State>, g: Gen, n: nat)
    requires n < |path| && forall i | 0 <= i < |path| - 1 :: Turn(path[i], g) == path[i + 1]
    ensures Turns(path[0], g, n) == path[n]
  {
    if n > 0 {
      TurnsFollow(path, g, n - 1);
      assert Turn(path[n - 1], g) == path[n];
    }
  }

  lemma LastHalfway(s: State, g: Gen, order: seq<ClientId>)
    requires Selects(s, g, order)
    ensures var t := Broadcasted(s, s.subs[g].conv, Held(s, g), Members(s, s.subs[g].conv));
      |t.subs| == |s.subs| && Halfway(s, g, order, |order|) == SetPhase(t, g, Idle)
  {
    assert order[..|order|] == order && order[|order|..] == [];
    BroadcastedKeepsForwarder(s, s.subs[g].conv, Held(s, g), Members(s, s.subs[g].conv), g);
  }

  /**
   The machine's steps refine the object's loop: a forwarder whose sends and evictions nothing
   interrupts leaves the hub exactly as BroadcastLocal does, whatever order the targets are in.
   */
  lemma UninterruptedTurnsAreABroadcast(s: State, g: Gen, order: seq<ClientId>)
    requires Selects(s, g, order)
    ensures var conv := s.subs[g].conv;
      var t := Broadcasted(s, conv, Held(s, g), Members(s, conv));
      |t.subs| == |s.subs| && Turns(Step(s, Snapshot(g, order)), g, |order|) == SetPhase(t, g, Idle)
  {
    var n := |order|;
    var path := seq(n + 1, i requires 0 <= i <= n => Halfway(s, g, order, i));
    forall i | 0 <= i < n ensures Turn(path[i], g) == path[i + 1] {
      NextTurn(s, g, order, i);
    }
    NoTurnYet(s, g, order);
    TurnsFollow(path, g, n);
    LastHalfway(s, g, order);
  }

  class Hub {
    var conversations: map<ConvId, set<ClientId>>
    var subscriptions: map<ConvId, Gen>
    var clients: map<ClientId, Client>
    var subs: seq<Sub>

    ghost function View(): State reads this {
      State(conversations, subscriptions, clients, subs, false)
    }

    constructor ()
      ensures View() == INIT && Structure(View())
    {
      conversations, subscriptions, clients, subs := map[], map[], map[], [];
    }

    method Subscribe(conv: ConvId, c: ClientId)
      requires c !in clients
      modifies this
      ensures View() == Join(old(View()), conv, c)
      ensures Structure(old(View())) ==> Structure(View()) && View().Registered(c)
    {
      ghost var before := View();
      if conv !in conversations {
        conversations := conversations[conv := {}];
      }
      clients := clients[c := Client(conv, [], [], 0)];
      conversations := conversations[conv := conversations[conv] + {c}];
      if conv !in subscriptions {
        subscriptions := subscriptions[conv := |subs|];
        subs := subs + [Sub(conv, [], 0, Idle, 0)];
      }
      assert conversations == before.conversations[conv := Members(before, conv) + {c}];
      assert View() == Join(before, conv, c);
      if Structure(before) { JoinKeepsStructure(before, conv, c); }
    }

    method Unsubscribe(conv: ConvId, c: ClientId)
      requires c in clients && SubsInRange(View())
      modifies this
      ensures View() == Leave(old(View()), conv, c)
      ensures Structure(old(View())) && clients[c].conv == conv ==> Structure(View()) && !View().Registered(c)
    {
      if Structure(View()) && clients[c].conv == conv { LeaveKeepsStructure(View(), c); }
      if conv !in conversations {
        return;
      }
      if c in conversations[conv] {
        conversations := conversations[conv := conversations[conv] - {c}];
        clients := clients[c := clients[c].(closes := clients[c].closes + 1)];
      }
      if conversations[conv] == {} {
        assert conversations - {conv} == old(conversations) - {conv};
        conversations := conversations - {conv};
        if conv in subscriptions {
          var g := subscriptions[conv];
          subs := subs[g := subs[g].(closes := subs[g].closes + 1)];
          subscriptions := subscriptions - {conv};
        }
      } else {
        assert c !in old(conversations)[conv] ==> old(conversations)[conv] - {c} == old(conversations)[conv];
        assert conversations == old(conversations)[conv := old(conversations)[conv] - {c}];
      }
    }

    /** Copy the set of members into a slice; a range over a Go map has no fixed order. */
    method Targets(conv: ConvId) returns (targets: seq<ClientId>)
      requires Structure(View())
      ensures Distinct(targets) && Elements(targets) == Members(View(), conv)
    {
      targets := [];
      if conv in conversations {
        var left := conversations[conv];
        while left != {}
          invariant Distinct(targets) && left !! Elements(targets)
          invariant Elements(targets) + left == conversations[conv]
          decreases left
        {
          var c :| c in left;
          assert (targets + [c])[..|targets|] == targets && (targets + [c])[..|targets| + 1] == targets + [c];
          ElementsSnoc(targets + [c], |targets|);
          assert c !in targets;
          targets, left := targets + [c], left - {c};
        }
      }
    }

    /** A broadcast that nothing interrupts; the send never meets a closed queue. */
    method BroadcastLocal(conv: ConvId, delivery: Delivery)
      requires Structure(View())
      modifies this
      ensures View() == Broadcasted(old(View()), conv, delivery, Members(old(View()), conv))
      ensures Structure(View())
    {
      ghost var before := View();
      var targets := Targets(conv);
      NothingBroadcasted(before, conv, delivery);
      assert Elements(targets[..0]) == {};
      assert View() == Broadcasted(before, conv, delivery, Elements(targets[..0]));
      for i := 0 to |targets|
        invariant Elements(targets[..i]) <= Members(before, conv)
        invariant View() == Broadcasted(before, conv, delivery, Elements(targets[..i]))
      {
        var c := targets[i];
        assert c in Elements(targets) && c !in targets[..i];
        ElementsSnoc(targets, i);
        BroadcastedNext(before, conv, delivery, Elements(targets[..i]), c);
        assert clients[c].Open();
        if |clients[c].queue| < SEND_BUFFER_SIZE {
          clients := clients[c := clients[c].(queue := clients[c].queue + [delivery])];
        } else {
          Unsubscribe(conv, c);
        }
      }
      assert targets[..|targets|] == targets;
      BroadcastedKeepsStructure(before, conv, delivery, Members(before, conv));
    }

    /** The forwarder's loop over the payloads of its subscription, when nothing else runs. */
    method ForwardSubscription(conv: ConvId, g: Gen, payloads: seq<Payload>)
      requires Structure(View())
      modifies this
      ensures View() == Forwarded(old(View()), conv, g, payloads)
    {
      ghost var before := View();
      var index := 0;
      for i := 0 to |payloads|
        invariant index == |Decoded(payloads[..i])|
        invariant Structure(View()) && View() == Forwarded(before, conv, g, payloads[..i])
      {
        assert payloads[..i + 1][..i] == payloads[..i];
        match payloads[i]
        case Malformed =>
        case Decodable(event) =>
          BroadcastLocal(conv, Delivery(g, index, event));
          index := index + 1;
      }
      assert payloads[..|payloads|] == payloads;
    }
  }
}
