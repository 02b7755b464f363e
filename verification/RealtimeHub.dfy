/**
 The realtime hub as a concurrent machine. Every statement that can be separated from its neighbours
 by another goroutine is a step of its own: joining and leaving run under the hub's lock, a broadcast
 copies the client set under the read lock and then sends to one client at a time without any lock,
 and the eviction of a slow client takes the lock again. Sending on a closed queue panics and ends
 the process; the machine has a terminal `crashed` state for it.
 */
module RealtimeHub {
  import opened Common

  type ClientId = nat
  type Gen = nat

  const SEND_BUFFER_SIZE: nat := 256

  datatype Event = Event(kind: string, data: string)

  /** What Redis hands to a subscription: text that either unmarshals to an event or does not. */
  datatype Payload = Decodable(event: Event) | Malformed

  /** An event on a client's queue. `gen` and `index` only record where it came from. */
  datatype Delivery = Delivery(gen: Gen, index: nat, event: Event)

  /** `written` is what the write pump has taken off the queue; `closes` counts calls of Close. */
  datatype Client = Client(conv: ConvId, queue: seq<Delivery>, written: seq<Delivery>, closes: nat)
  {
    predicate Open() { closes == 0 }

    /** Everything ever put on the queue, in order. */
    function Log(): seq<Delivery> { written + queue }
  }

  /** Where one forwarder goroutine stands in its loop. */
  datatype Phase =
    | Idle
    | Holding(event: Event)
    | Sending(event: Event, targets: seq<ClientId>)
    | Evicting(event: Event, client: ClientId, rest: seq<ClientId>)
  {
    /** The selected clients this broadcast has not finished with. */
    function Pending(): seq<ClientId> {
      match this
      case Sending(_, targets) => targets
      case Evicting(_, client, rest) => [client] + rest
      case _ => []
    }
  }

  /** A subscription and its forwarder; its generation is its index in `State.subs`. */
  datatype Sub = Sub(conv: ConvId, payloads: seq<Payload>, next: nat, phase: Phase, closes: nat)

  datatype State = State(
    conversations: map<ConvId, set<ClientId>>,
    subscriptions: map<ConvId, Gen>,
    clients: map<ClientId, Client>,
    subs: seq<Sub>,
    crashed: bool)
  {
    predicate Registered(c: ClientId) {
      c in clients && clients[c].conv in conversations && c in conversations[clients[c].conv]
    }

    predicate Stored(g: Gen) requires g < |subs| {
      subs[g].conv in subscriptions && subscriptions[subs[g].conv] == g
    }
  }

  const INIT := State(map[], map[], map[], [], false)

  // ---------------------------------------------------------------- the hub's own operations

  function Members(s: State, conv: ConvId): set<ClientId> {
    if conv in s.conversations then s.conversations[conv] else {}
  }

  /** Subscribe: register the client, and open a subscription if the conversation has none. */
  function Join(s: State, conv: ConvId, c: ClientId): State {
    var joined := s.(conversations := s.conversations[conv := Members(s, conv) + {c}],
                     clients := s.clients[c := Client(conv, [], [], 0)]);
    if conv in s.subscriptions then joined
    else joined.(subscriptions := s.subscriptions[conv := |s.subs|],
                 subs := s.subs + [Sub(conv, [], 0, Idle, 0)])
  }

  function CloseClient(s: State, c: ClientId): State requires c in s.clients {
    s.(clients := s.clients[c := s.clients[c].(closes := s.clients[c].closes + 1)])
  }

  function CloseSub(s: State, g: Gen): State requires g < |s.subs| {
    s.(subs := s.subs[g := s.subs[g].(closes := s.subs[g].closes + 1)])
  }

  /** Unsubscribe: drop and close a registered client; drop the conversation with its last client. */
  function Leave(s: State, conv: ConvId, c: ClientId): State
    requires c in s.clients
    requires conv in s.subscriptions ==> s.subscriptions[conv] < |s.subs|
  {
    if conv !in s.conversations then s
    else
      var left := s.conversations[conv] - {c};
      var dropped := if c in s.conversations[conv] then CloseClient(s, c) else s;
      if left != {} then dropped.(conversations := s.conversations[conv := left])
      else
        var emptied := dropped.(conversations := s.conversations - {conv});
        if conv in s.subscriptions then
          CloseSub(emptied, s.subscriptions[conv]).(subscriptions := s.subscriptions - {conv})
        else emptied
  }

  // ---------------------------------------------------------------- steps and runs

  datatype Action =
    | JoinStep(conv: ConvId, client: ClientId)
    | LeaveStep(client: ClientId)
    | Arrive(gen: Gen, payload: Payload)
    | Pull(gen: Gen)
    | Snapshot(gen: Gen, order: seq<ClientId>)
    | Send(gen: Gen)
    | Evict(gen: Gen)
    | Dequeue(client: ClientId)

  ghost predicate Enabled(s: State, a: Action) {
    && !s.crashed
    && match a
       case JoinStep(_, c) => c !in s.clients
       case LeaveStep(c) => c in s.clients
       case Arrive(g, _) => g < |s.subs|
       case Pull(g) => g < |s.subs| && s.subs[g].phase.Idle? && s.subs[g].next < |s.subs[g].payloads|
       case Snapshot(g, order) =>
         && g < |s.subs| && s.subs[g].phase.Holding?
         && Distinct(order) && Elements(order) == Members(s, s.subs[g].conv)
       case Send(g) =>
         g < |s.subs| && s.subs[g].phase.Sending? && s.subs[g].phase.targets != []
         && s.subs[g].phase.targets[0] in s.clients
       case Evict(g) => g < |s.subs| && s.subs[g].phase.Evicting? && s.subs[g].phase.client in s.clients
       case Dequeue(c) => c in s.clients && s.clients[c].queue != []
  }

  function SetPhase(s: State, g: Gen, phase: Phase): State requires g < |s.subs| {
    s.(subs := s.subs[g := s.subs[g].(phase := phase)])
  }

  function Broadcasting(event: Event, rest: seq<ClientId>): Phase {
    if rest == [] then Idle else Sending(event, rest)
  }

  /** The events a forwarder has unmarshalled from a run of payloads; the others are skipped. */
  function Decoded(payloads: seq<Payload>): seq<Event> {
    if payloads == [] then []
    else
      var n := |payloads| - 1;
      Decoded(payloads[..n]) + if payloads[n].Decodable? then [payloads[n].event] else []
  }

  function Consumed(sub: Sub): seq<Event> {
    if sub.next <= |sub.payloads| then Decoded(sub.payloads[..sub.next]) else []
  }

  ghost function PullStep(s: State, g: Gen): State requires Enabled(s, Pull(g)) {
    var sub := s.subs[g];
    var payload := sub.payloads[sub.next];
    s.(subs := s.subs[g := sub.(next := sub.next + 1,
                                phase := if payload.Decodable? then Holding(payload.event) else Idle)])
  }

  /** One turn of the send loop: panic on a closed queue, enqueue if there is room, else evict next. */
  ghost function SendStep(s: State, g: Gen): State requires Enabled(s, Send(g)) {
    var sub := s.subs[g];
    var event, c, rest := sub.phase.event, sub.phase.targets[0], sub.phase.targets[1..];
    var client := s.clients[c];
    if !client.Open() then s.(crashed := true)
    else if |client.queue| < SEND_BUFFER_SIZE then
      var delivery := Delivery(g, if Consumed(sub) == [] then 0 else |Consumed(sub)| - 1, event);
      SetPhase(s, g, Broadcasting(event, rest))
        .(clients := s.clients[c := client.(queue := client.queue + [delivery])])
    else SetPhase(s, g, Evicting(event, c, rest))
  }

  ghost predicate SubsInRange(s: State) {
    forall k <- s.subscriptions :: s.subscriptions[k] < |s.subs|
  }

  ghost function EvictStep(s: State, g: Gen): State requires Enabled(s, Evict(g)) && SubsInRange(s) {
    var phase := s.subs[g].phase;
    SetPhase(Leave(s, s.subs[g].conv, phase.client), g, Broadcasting(phase.event, phase.rest))
  }

  /** A step that is not enabled changes nothing, so every sequence of actions is a run. */
  ghost function Step(s: State, a: Action): State {
    if !Enabled(s, a) || !SubsInRange(s) then s
    else match a
      case JoinStep(conv, c) => Join(s, conv, c)
      case LeaveStep(c) => Leave(s, s.clients[c].conv, c)
      case Arrive(g, payload) =>
        s.(subs := s.subs[g := s.subs[g].(payloads := s.subs[g].payloads + [payload])])
      case Pull(g) => PullStep(s, g)
      case Snapshot(g, order) => SetPhase(s, g, Broadcasting(s.subs[g].phase.event, order))
      case Send(g) => SendStep(s, g)
      case Evict(g) => EvictStep(s, g)
      case Dequeue(c) =>
        var client := s.clients[c];
        s.(clients := s.clients[c := client.(queue := client.queue[1..],
                                             written := client.written + [client.queue[0]])])
  }

  ghost function Run(actions: seq<Action>): State {
    if actions == [] then INIT else Step(Run(actions[..|actions| - 1]), actions[|actions| - 1])
  }

  // ---------------------------------------------------------------- structure

  ghost predicate ClientsOk(s: State) {
    && (forall k <- s.conversations :: s.conversations[k] != {})
    && (forall k <- s.conversations, c <- s.conversations[k] :: c in s.clients && s.clients[c].conv == k)
    && (forall c <- s.clients :: s.clients[c].closes <= 1 && |s.clients[c].queue| <= SEND_BUFFER_SIZE)
    && (forall c <- s.clients :: s.clients[c].Open() <==> s.Registered(c))
  }

  ghost predicate SubsOk(s: State) {
    && s.conversations.Keys == s.subscriptions.Keys
    && SubsInRange(s)
    && (forall k <- s.subscriptions :: s.subs[s.subscriptions[k]].conv == k)
    && (forall g: Gen :: g < |s.subs| ==> s.subs[g].closes == if s.Stored(g) then 0 else 1)
  }

  ghost predicate ForwarderOk(s: State, g: Gen) requires g < |s.subs| {
    var sub := s.subs[g];
    && sub.next <= |sub.payloads|
    && (!sub.phase.Idle? ==> Consumed(sub) != [] && sub.phase.event == Consumed(sub)[|Consumed(sub)| - 1])
    && (sub.phase.Sending? ==> sub.phase.targets != [])
    && Distinct(sub.phase.Pending())
    && (forall c :: c in sub.phase.Pending() ==> c in s.clients && s.clients[c].conv == sub.conv)
  }

  /** Holds whenever the hub's lock is free. */
  ghost predicate Structure(s: State) {
    && ClientsOk(s)
    && SubsOk(s)
    && (forall g: Gen :: g < |s.subs| ==> ForwarderOk(s, g))
  }

  lemma JoinKeepsRegistration(s: State, conv: ConvId, c: ClientId, d: ClientId)
    requires ClientsOk(s) && c !in s.clients && (d in s.clients || d == c)
    ensures var t := Join(s, conv, c);
      && d in t.clients && (t.Registered(d) <==> d == c || s.Registered(d))
      && t.clients[d] == if d == c then Client(conv, [], [], 0) else s.clients[d]
  {}

  lemma JoinKeepsMembers(s: State, conv: ConvId, c: ClientId)
    requires ClientsOk(s) && c !in s.clients
    ensures var t := Join(s, conv, c);
      && (forall k <- t.conversations :: t.conversations[k] != {})
      && (forall k <- t.conversations, d <- t.conversations[k] :: d in t.clients && t.clients[d].conv == k)
  {}

  lemma JoinKeepsClients(s: State, conv: ConvId, c: ClientId)
    requires ClientsOk(s) && c !in s.clients
    ensures ClientsOk(Join(s, conv, c)) && Join(s, conv, c).Registered(c)
  {
    var t := Join(s, conv, c);
    JoinKeepsMembers(s, conv, c);
    forall d <- t.clients
      ensures t.clients[d].Open() <==> t.Registered(d)
      ensures t.clients[d].closes <= 1 && |t.clients[d].queue| <= SEND_BUFFER_SIZE
    {
      JoinKeepsRegistration(s, conv, c, d);
      assert d != c ==> (s.clients[d].Open() <==> s.Registered(d));
    }
    JoinKeepsRegistration(s, conv, c, c);
  }

  lemma JoinOldSubs(s: State, conv: ConvId, c: ClientId)
    requires SubsOk(s) && conv in s.subscriptions
    ensures SubsOk(Join(s, conv, c))
  {
    var t := Join(s, conv, c);
    assert t.subs == s.subs && t.subscriptions == s.subscriptions;
    assert t.conversations.Keys == s.conversations.Keys;
    forall g: Gen | g < |t.subs| ensures t.Stored(g) == s.Stored(g) {}
  }

  lemma JoinNewStored(s: State, conv: ConvId, c: ClientId, g: Gen)
    requires SubsOk(s) && conv !in s.subscriptions && g <= |s.subs|
    ensures var t := Join(s, conv, c);
      && |t.subs| == |s.subs| + 1
      && if g == |s.subs| then t.Stored(g) && t.subs[g].closes == 0
         else t.subs[g] == s.subs[g] && t.Stored(g) == s.Stored(g)
  {
    var t := Join(s, conv, c);
    assert t.subs[g] == if g == |s.subs| then Sub(conv, [], 0, Idle, 0) else s.subs[g];
  }

  lemma JoinNewSub(s: State, conv: ConvId, c: ClientId)
    requires SubsOk(s) && conv !in s.subscriptions
    ensures SubsOk(Join(s, conv, c))
  {
    var t := Join(s, conv, c);
    assert t.conversations.Keys == s.conversations.Keys + {conv};
    assert t.subscriptions.Keys == s.subscriptions.Keys + {conv};
    assert forall k <- s.subscriptions :: t.subscriptions[k] == s.subscriptions[k] < |s.subs|;
    forall g: Gen | g < |t.subs| ensures t.subs[g].closes == if t.Stored(g) then 0 else 1 {
      JoinNewStored(s, conv, c, g);
    }
  }

  lemma JoinKeepsForwarders(s: State, conv: ConvId, c: ClientId, g: Gen)
    requires Structure(s) && c !in s.clients && g < |Join(s, conv, c).subs|
    ensures ForwarderOk(Join(s, conv, c), g)
  {
    if g < |s.subs| { assert ForwarderOk(s, g) && Join(s, conv, c).subs[g] == s.subs[g]; }
  }

  lemma JoinKeepsStructure(s: State, conv: ConvId, c: ClientId)
    requires Structure(s) && c !in s.clients
    ensures Structure(Join(s, conv, c)) && Join(s, conv, c).Registered(c)
  {
    JoinKeepsClients(s, conv, c);
    if conv in s.subscriptions { JoinOldSubs(s, conv, c); } else { JoinNewSub(s, conv, c); }
    forall g: Gen | g < |Join(s, conv, c).subs| { JoinKeepsForwarders(s, conv, c, g); }
  }

  /** Unsubscribing a client that is no longer registered, say after its eviction, changes nothing. */
  lemma LeaveAgain(s: State, c: ClientId)
    requires Structure(s) && c in s.clients && !s.Registered(c)
    ensures Leave(s, s.clients[c].conv, c) == s
  {
    var conv := s.clients[c].conv;
    if conv in s.conversations {
      assert s.conversations[conv] - {c} == s.conversations[conv];
      assert s.conversations[conv := s.conversations[conv]] == s.conversations;
    }
  }

  ghost predicate OnlyCloses(s: State, t: State, c: ClientId) requires c in s.clients {
    && t.clients.Keys == s.clients.Keys
    && t.clients[c].Log() == s.clients[c].Log()
    && (forall d <- s.clients | d != c :: t.clients[d] == s.clients[d])
    && |t.subs| == |s.subs|
    && (forall g: Gen | g < |s.subs| :: t.subs[g] == s.subs[g].(closes := t.subs[g].closes))
  }

  lemma OnlyClosesKeepsForwarders(s: State, t: State, c: ClientId)
    requires Structure(s) && c in s.clients && OnlyCloses(s, t, c)
    requires t.clients[c].conv == s.clients[c].conv
    ensures forall g: Gen :: g < |t.subs| ==> ForwarderOk(t, g)
  {
    forall g: Gen | g < |t.subs| ensures ForwarderOk(t, g) {
      assert ForwarderOk(s, g) && Consumed(t.subs[g]) == Consumed(s.subs[g]);
    }
  }

  /** What leaving does to the sets of members. */
  lemma LeaveMembers(s: State, c: ClientId, k: ConvId)
    requires Structure(s) && s.Registered(c)
    ensures var conv := s.clients[c].conv;
      Members(Leave(s, conv, c), k) == if k == conv then Members(s, conv) - {c} else Members(s, k)
  {
    var conv := s.clients[c].conv;
    var left := s.conversations[conv] - {c};
    var t := Leave(s, conv, c);
    if left == {} {
      assert t.conversations == s.conversations - {conv};
    } else {
      assert t.conversations == s.conversations[conv := left];
    }
  }

  lemma LeaveKeepsRegistration(s: State, c: ClientId, d: ClientId)
    requires Structure(s) && s.Registered(c) && d in s.clients
    ensures var t := Leave(s, s.clients[c].conv, c);
      && d in t.clients && t.clients[d].conv == s.clients[d].conv
      && (t.Registered(d) <==> d != c && s.Registered(d))
      && t.clients[d].closes == s.clients[d].closes + (if d == c then 1 else 0)
      && t.clients[d].queue == s.clients[d].queue
  {
    var t := Leave(s, s.clients[c].conv, c);
    assert t.clients == CloseClient(s, c).clients;
    LeaveMembers(s, c, s.clients[d].conv);
    assert t.Registered(d) <==> d in Members(t, s.clients[d].conv);
    assert s.Registered(d) <==> d in Members(s, s.clients[d].conv);
  }

  lemma LeaveKeepsClients(s: State, c: ClientId)
    requires Structure(s) && s.Registered(c)
    ensures ClientsOk(Leave(s, s.clients[c].conv, c)) && !Leave(s, s.clients[c].conv, c).Registered(c)
  {
    var t := Leave(s, s.clients[c].conv, c);
    forall d <- t.clients
      ensures t.clients[d].Open() <==> t.Registered(d)
      ensures t.clients[d].closes <= 1 && |t.clients[d].queue| <= SEND_BUFFER_SIZE
    {
      LeaveKeepsRegistration(s, c, d);
      assert s.clients[d].Open() <==> s.Registered(d);
    }
    LeaveKeepsRegistration(s, c, c);
  }

  lemma LeaveKeepsSubs(s: State, c: ClientId)
    requires Structure(s) && s.Registered(c)
    ensures SubsOk(Leave(s, s.clients[c].conv, c))
  {
    var conv := s.clients[c].conv;
    var t := Leave(s, conv, c);
    if s.conversations[conv] - {c} == {} {
      forall g: Gen | g < |t.subs| ensures t.subs[g].closes == if t.Stored(g) then 0 else 1 {
        assert s.subs[g].closes == if s.Stored(g) then 0 else 1;
      }
    } else {
      assert t.subs == s.subs && t.subscriptions == s.subscriptions;
      forall g: Gen | g < |t.subs| ensures t.subs[g].closes == if t.Stored(g) then 0 else 1 {
        assert s.subs[g].closes == if s.Stored(g) then 0 else 1;
        assert t.Stored(g) == s.Stored(g);
      }
    }
  }

  lemma LeaveOnlyCloses(s: State, c: ClientId)
    requires Structure(s) && s.Registered(c)
    ensures OnlyCloses(s, Leave(s, s.clients[c].conv, c), c)
  {}

  lemma LeaveKeepsStructure(s: State, c: ClientId)
    requires Structure(s) && c in s.clients
    ensures var t := Leave(s, s.clients[c].conv, c);
      Structure(t) && !t.Registered(c) && OnlyCloses(s, t, c)
  {
    if s.Registered(c) {
      LeaveKeepsClients(s, c);
      LeaveKeepsSubs(s, c);
      LeaveOnlyCloses(s, c);
      LeaveKeepsRegistration(s, c, c);
      OnlyClosesKeepsForwarders(s, Leave(s, s.clients[c].conv, c), c);
    } else {
      LeaveAgain(s, c);
    }
  }
}
