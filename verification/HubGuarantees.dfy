/**
 What every run of the realtime hub guarantees: its structure, that a client's stream from one
 subscription has no gaps, that a closed client is given nothing more, and exactly when a forwarder
 meets a closed queue.
 */
module HubGuarantees {
  import opened Common
  import opened RealtimeHub

  // ---------------------------------------------------------------- every step keeps the structure

  /** A step that only rewrites one subscription, keeping its conversation and its close count. */
  lemma SubUpdateKeepsStructure(s: State, g: Gen, sub: Sub)
    requires Structure(s) && g < |s.subs|
    requires sub.conv == s.subs[g].conv && sub.closes == s.subs[g].closes
    requires ForwarderOk(s.(subs := s.subs[g := sub]), g)
    ensures Structure(s.(subs := s.subs[g := sub]))
  {
    var t := s.(subs := s.subs[g := sub]);
    assert SubsOk(t) by {
      forall h: Gen | h < |t.subs| ensures t.subs[h].closes == if t.Stored(h) then 0 else 1 {
        assert s.subs[h].closes == if s.Stored(h) then 0 else 1;
      }
    }
    assert ClientsOk(t) by {
      assert forall d <- s.clients :: t.Registered(d) == s.Registered(d);
    }
    forall h: Gen | h < |t.subs| ensures ForwarderOk(t, h) {
      assert h != g ==> ForwarderOk(s, h);
    }
  }

  /** A step that only moves events on one client's queue. */
  lemma QueueUpdateKeepsStructure(s: State, c: ClientId, client: Client)
    requires Structure(s) && c in s.clients
    requires client.conv == s.clients[c].conv && client.closes == s.clients[c].closes
    requires |client.queue| <= SEND_BUFFER_SIZE
    ensures Structure(s.(clients := s.clients[c := client]))
  {
    var t := s.(clients := s.clients[c := client]);
    forall h: Gen | h < |t.subs| ensures ForwarderOk(t, h) && t.Stored(h) == s.Stored(h) {
      assert ForwarderOk(s, h);
    }
    assert forall d <- s.clients :: t.Registered(d) == s.Registered(d);
    assert ClientsOk(t) by {
      forall d <- t.clients ensures t.clients[d].Open() <==> t.Registered(d) {
        assert s.clients[d].Open() <==> s.Registered(d);
      }
    }
  }

  lemma ArriveKeepsStructure(s: State, g: Gen, payload: Payload)
    requires Structure(s) && Enabled(s, Arrive(g, payload))
    ensures Structure(Step(s, Arrive(g, payload)))
    ensures Consumed(Step(s, Arrive(g, payload)).subs[g]) == Consumed(s.subs[g])
  {
    var sub := s.subs[g];
    assert ForwarderOk(s, g);
    assert (sub.payloads + [payload])[..sub.next] == sub.payloads[..sub.next];
    SubUpdateKeepsStructure(s, g, sub.(payloads := sub.payloads + [payload]));
  }

  lemma PullKeepsStructure(s: State, g: Gen)
    requires Structure(s) && Enabled(s, Pull(g))
    ensures Structure(Step(s, Pull(g)))
    ensures var sub, sub' := s.subs[g], Step(s, Pull(g)).subs[g];
      Consumed(sub') == Consumed(sub) + if sub'.phase.Holding? then [sub'.phase.event] else []
  {
    var sub := s.subs[g];
    var sub' := Step(s, Pull(g)).subs[g];
    assert sub'.payloads[..sub'.next][..sub.next] == sub.payloads[..sub.next];
    SubUpdateKeepsStructure(s, g, sub');
  }

  lemma PhaseKeepsStructure(s: State, g: Gen, phase: Phase)
    requires Structure(s) && g < |s.subs|
    requires !phase.Idle? ==> !s.subs[g].phase.Idle? && phase.event == s.subs[g].phase.event
    requires phase.Sending? ==> phase.targets != []
    requires Distinct(phase.Pending())
    requires forall c :: c in phase.Pending() ==> c in s.clients && s.clients[c].conv == s.subs[g].conv
    ensures Structure(SetPhase(s, g, phase))
  {
    assert ForwarderOk(s, g);
    assert Consumed(s.subs[g].(phase := phase)) == Consumed(s.subs[g]);
    SubUpdateKeepsStructure(s, g, s.subs[g].(phase := phase));
  }

  lemma SnapshotKeepsStructure(s: State, g: Gen, order: seq<ClientId>)
    requires Structure(s) && Enabled(s, Snapshot(g, order))
    ensures Structure(Step(s, Snapshot(g, order)))
  {
    forall c | c in order ensures c in s.clients && s.clients[c].conv == s.subs[g].conv {
      assert c in Elements(order);
      assert c in Members(s, s.subs[g].conv);
    }
    PhaseKeepsStructure(s, g, Broadcasting(s.subs[g].phase.event, order));
  }

  lemma CrashKeepsStructure(s: State)
    requires Structure(s)
    ensures Structure(s.(crashed := true))
  {
    var t := s.(crashed := true);
    assert ClientsOk(t) by {
      forall d <- t.clients ensures t.clients[d].Open() <==> t.Registered(d) {
        assert s.clients[d].Open() <==> s.Registered(d);
      }
    }
    assert SubsOk(t) by {
      forall h: Gen | h < |t.subs| ensures t.subs[h].closes == if t.Stored(h) then 0 else 1 {
        assert s.subs[h].closes == if s.Stored(h) then 0 else 1;
      }
    }
    forall h: Gen | h < |t.subs| ensures ForwarderOk(t, h) { assert ForwarderOk(s, h); }
  }

  lemma SendKeepsStructure(s: State, g: Gen)
    requires Structure(s) && Enabled(s, Send(g))
    ensures Structure(SendStep(s, g))
  {
    var phase := s.subs[g].phase;
    var c := phase.targets[0];
    assert ForwarderOk(s, g);
    assert phase.Pending() == [c] + phase.targets[1..];
    if !s.clients[c].Open() {
      CrashKeepsStructure(s);
    } else if |s.clients[c].queue| < SEND_BUFFER_SIZE {
      var next := Broadcasting(phase.event, phase.targets[1..]);
      assert next.Pending() == phase.targets[1..];
      PhaseKeepsStructure(s, g, next);
      var delivery := Delivery(g, |Consumed(s.subs[g])| - 1, phase.event);
      var client := s.clients[c].(queue := s.clients[c].queue + [delivery]);
      QueueUpdateKeepsStructure(SetPhase(s, g, next), c, client);
    } else {
      PhaseKeepsStructure(s, g, Evicting(phase.event, c, phase.targets[1..]));
    }
  }

  lemma RestOfPending(phase: Phase)
    requires phase.Evicting? && Distinct(phase.Pending())
    ensures var next := Broadcasting(phase.event, phase.rest);
      && next.Pending() == phase.rest && Distinct(next.Pending()) && phase.client !in next.Pending()
      && forall c :: c in phase.Pending() <==> c == phase.client || c in next.Pending()
  {
    assert phase.Pending()[0] == phase.client;
    assert forall i | 0 <= i < |phase.rest| :: phase.rest[i] == phase.Pending()[i + 1];
  }

  lemma EvictKeepsStructure(s: State, g: Gen)
    requires Structure(s) && Enabled(s, Evict(g))
    ensures Structure(EvictStep(s, g))
  {
    var phase := s.subs[g].phase;
    assert ForwarderOk(s, g);
    RestOfPending(phase);
    LeaveKeepsStructure(s, phase.client);
    var t := Leave(s, s.subs[g].conv, phase.client);
    assert t.subs[g].phase == phase && t.subs[g].conv == s.subs[g].conv;
    forall c | c in phase.rest ensures c in t.clients && t.clients[c].conv == s.subs[g].conv {
      assert c in phase.Pending() && c != phase.client;
    }
    PhaseKeepsStructure(t, g, Broadcasting(phase.event, phase.rest));
  }

  lemma StepKeepsStructure(s: State, a: Action)
    requires Structure(s)
    ensures Structure(Step(s, a))
  {
    if Enabled(s, a) {
      match a
      case JoinStep(conv, c) => JoinKeepsStructure(s, conv, c);
      case LeaveStep(c) => LeaveKeepsStructure(s, c);
      case Arrive(g, payload) => ArriveKeepsStructure(s, g, payload);
      case Pull(g) => PullKeepsStructure(s, g);
      case Snapshot(g, order) => SnapshotKeepsStructure(s, g, order);
      case Send(g) => SendKeepsStructure(s, g);
      case Evict(g) => EvictKeepsStructure(s, g);
      case Dequeue(c) => QueueUpdateKeepsStructure(s, c, Step(s, a).clients[c]);
    }
  }

  /** The hub's structure in every state of every run. */
  lemma {:induction false} HubStructure(actions: seq<Action>)
    ensures var s := Run(actions);
      && s.conversations.Keys == s.subscriptions.Keys
      && (forall k <- s.conversations :: s.conversations[k] != {})
      && (forall c <- s.clients :: s.clients[c].closes == if s.Registered(c) then 0 else 1)
      && (forall g: Gen | g < |s.subs| :: s.subs[g].closes == if s.Stored(g) then 0 else 1)
      && Structure(s)
  {
    if actions != [] {
      HubStructure(actions[..|actions| - 1]);
      StepKeepsStructure(Run(actions[..|actions| - 1]), actions[|actions| - 1]);
    }
    forall c <- Run(actions).clients
      ensures Run(actions).clients[c].closes == if Run(actions).Registered(c) then 0 else 1
    {
      assert Run(actions).clients[c].Open() <==> Run(actions).Registered(c);
    }
  }

  // ---------------------------------------------------------------- no gaps

  /** The part of a client's log that came from subscription `g`. */
  function From(log: seq<Delivery>, g: Gen): seq<Delivery> {
    if log == [] then []
    else
      var n := |log| - 1;
      From(log[..n], g) + if log[n].gen == g then [log[n]] else []
  }

  function Events(log: seq<Delivery>): seq<Event> {
    seq(|log|, i requires 0 <= i < |log| => log[i].event)
  }

  lemma FromAppend(log: seq<Delivery>, d: Delivery, g: Gen)
    ensures From(log + [d], g) == From(log, g) + if d.gen == g then [d] else []
  {
    assert (log + [d])[..|log|] == log;
  }

  lemma {:induction false} FromPrefix(log: seq<Delivery>, more: seq<Delivery>, g: Gen)
    ensures From(log, g) <= From(log + more, g)
  {
    if more == [] {
      assert log + more == log;
    } else {
      var n := |more| - 1;
      FromPrefix(log, more[..n], g);
      assert log + more == (log + more[..n]) + [more[n]];
      FromAppend(log + more[..n], more[n], g);
    }
  }

  lemma {:induction false} DecodedPrefix(payloads: seq<Payload>, n: nat)
    requires n <= |payloads|
    ensures Decoded(payloads[..n]) <= Decoded(payloads)
    decreases |payloads|
  {
    if n == |payloads| {
      assert payloads[..n] == payloads;
    } else {
      var m := |payloads| - 1;
      DecodedPrefix(payloads[..m], n);
      assert payloads[..m][..n] == payloads[..n];
    }
  }

  /** The index of the next event subscription `sub` will put on the queue of a registered client. */
  function NextIndex(sub: Sub, c: ClientId): int {
    if sub.phase.Holding? || c in sub.phase.Pending() then |Consumed(sub)| - 1 else |Consumed(sub)|
  }

  /** `part` is a gapless piece of what `sub` has consumed; for an open client it reaches up to `sub`. */
  ghost predicate Gapless(part: seq<Delivery>, client: Client, c: ClientId, sub: Sub) {
    && (part != [] ==> client.conv == sub.conv)
    && (forall i | 0 <= i < |part| ::
          && part[i].index == part[0].index + i
          && part[i].index < |Consumed(sub)|
          && part[i].event == Consumed(sub)[part[i].index])
    && (part != [] && client.Open() ==> part[|part| - 1].index + 1 == NextIndex(sub, c))
  }

  ghost predicate PairOk(s: State, c: ClientId, g: Gen) requires c in s.clients && g < |s.subs| {
    Gapless(From(s.clients[c].Log(), g), s.clients[c], c, s.subs[g])
  }

  ghost predicate Streams(s: State) {
    && (forall c <- s.clients, g: Gen | g < |s.subs| :: PairOk(s, c, g))
    && (forall c <- s.clients, g: Gen | g >= |s.subs| :: From(s.clients[c].Log(), g) == [])
  }

  /** A pair whose log and position do not move stays gapless; so does one whose client closes. */
  lemma SamePair(s: State, t: State, c: ClientId, g: Gen)
    requires c in s.clients && c in t.clients && g < |s.subs| && g < |t.subs| && PairOk(s, c, g)
    requires t.clients[c].Log() == s.clients[c].Log() && t.clients[c].conv == s.clients[c].conv
    requires t.subs[g].conv == s.subs[g].conv && Consumed(s.subs[g]) <= Consumed(t.subs[g])
    requires t.clients[c].Open() ==> s.clients[c].Open()
    requires t.clients[c].Open() && From(s.clients[c].Log(), g) != [] ==>
               NextIndex(t.subs[g], c) == NextIndex(s.subs[g], c)
    ensures PairOk(t, c, g)
  {}

  lemma JoinKeepsStreams(s: State, conv: ConvId, c: ClientId)
    requires Structure(s) && Streams(s) && c !in s.clients
    ensures Streams(Join(s, conv, c))
  {
    var t := Join(s, conv, c);
    forall d <- t.clients, g: Gen
      ensures if g < |t.subs| then PairOk(t, d, g) else From(t.clients[d].Log(), g) == []
    {
      if d != c && g < |s.subs| { SamePair(s, t, d, g); }
    }
  }

  lemma ClosingKeepsPair(s: State, t: State, e: ClientId, c: ClientId, g: Gen)
    requires e in s.clients && OnlyCloses(s, t, e) && c in s.clients && g < |s.subs| && PairOk(s, c, g)
    requires t.clients[e].conv == s.clients[e].conv && (t.clients[e].Open() ==> s.clients[e].Open())
    ensures PairOk(t, c, g)
  {
    assert Consumed(t.subs[g]) == Consumed(s.subs[g]);
    SamePair(s, t, c, g);
  }

  lemma LeaveKeepsStreams(s: State, c: ClientId)
    requires Structure(s) && Streams(s) && c in s.clients
    ensures Streams(Leave(s, s.clients[c].conv, c))
  {
    LeaveKeepsStructure(s, c);
    var t := Leave(s, s.clients[c].conv, c);
    forall d <- t.clients, g: Gen
      ensures if g < |t.subs| then PairOk(t, d, g) else From(t.clients[d].Log(), g) == []
    {
      if g < |t.subs| { ClosingKeepsPair(s, t, c, d, g); }
    }
  }

  /** A step of forwarder `g` that touches no client and moves no open client's position. */
  lemma SubStepKeepsStreams(s: State, g: Gen, sub: Sub)
    requires Structure(s) && Streams(s) && g < |s.subs|
    requires sub.conv == s.subs[g].conv && Consumed(s.subs[g]) <= Consumed(sub)
    requires forall c <- s.clients | s.clients[c].Open() && s.clients[c].conv == sub.conv ::
               NextIndex(sub, c) == NextIndex(s.subs[g], c)
    ensures Streams(s.(subs := s.subs[g := sub]))
  {
    var t := s.(subs := s.subs[g := sub]);
    forall c <- t.clients, h: Gen | h < |t.subs| ensures PairOk(t, c, h) {
      assert PairOk(s, c, h);
      SamePair(s, t, c, h);
    }
  }

  /** `t` is `s` after forwarder `g` has put `delivery` on the queue of its next target `c`. */
  ghost predicate Delivered(s: State, t: State, g: Gen, c: ClientId, delivery: Delivery) {
    && |t.subs| == |s.subs| && g < |s.subs| && c in s.clients && t.clients.Keys == s.clients.Keys
    && (forall h: Gen | h < |s.subs| && h != g :: t.subs[h] == s.subs[h])
    && (forall d <- s.clients | d != c :: t.clients[d] == s.clients[d])
    && var sub, sub' := s.subs[g], t.subs[g];
    && Consumed(sub') == Consumed(sub) != []
    && delivery.gen == g && delivery.index == |Consumed(sub)| - 1 && delivery.event == Consumed(sub)[delivery.index]
    && s.clients[c].conv == t.clients[c].conv == sub.conv == sub'.conv && s.clients[c].Open()
    && c in sub.phase.Pending() && c !in sub'.phase.Pending() && !sub.phase.Holding? && !sub'.phase.Holding?
    && (forall d | d != c :: d in sub'.phase.Pending() <==> d in sub.phase.Pending())
    && t.clients[c].Log() == s.clients[c].Log() + [delivery]
  }

  lemma RestOfTargets(phase: Phase)
    requires phase.Sending? && phase.targets != [] && Distinct(phase.Pending())
    ensures var c, next := phase.targets[0], Broadcasting(phase.event, phase.targets[1..]);
      && next.Pending() == phase.targets[1..] && c in phase.Pending() && c !in next.Pending()
      && forall d | d != c :: d in next.Pending() <==> d in phase.Pending()
  {
    assert phase.targets == [phase.targets[0]] + phase.targets[1..];
  }

  lemma SendDelivers(s: State, g: Gen, c: ClientId, delivery: Delivery)
    requires Structure(s) && Enabled(s, Send(g)) && c == s.subs[g].phase.targets[0]
    requires s.clients[c].Open() && |s.clients[c].queue| < SEND_BUFFER_SIZE
    requires var consumed := Consumed(s.subs[g]);
      delivery == Delivery(g, if consumed == [] then 0 else |consumed| - 1, s.subs[g].phase.event)
    ensures Delivered(s, SendStep(s, g), g, c, delivery)
  {
    var sub, t := s.subs[g], SendStep(s, g);
    assert ForwarderOk(s, g);
    RestOfTargets(sub.phase);
    assert s.clients[c].conv == sub.conv;
    assert t.subs[g] == sub.(phase := Broadcasting(sub.phase.event, sub.phase.targets[1..]));
    assert Consumed(t.subs[g]) == Consumed(sub);
    assert t.clients[c] == s.clients[c].(queue := s.clients[c].queue + [delivery]);
  }

  lemma DeliveryExtends(part: seq<Delivery>, delivery: Delivery, client: Client, client': Client, c: ClientId,
                        sub: Sub, sub': Sub)
    requires Gapless(part, client, c, sub) && client.Open() && client.conv == client'.conv == sub.conv
    requires !sub.phase.Holding?
    requires c in sub.phase.Pending() && c !in sub'.phase.Pending() && !sub'.phase.Holding?
    requires Consumed(sub') == Consumed(sub) != [] && sub.conv == sub'.conv
    requires delivery.index == |Consumed(sub)| - 1 && delivery.event == Consumed(sub)[delivery.index]
    ensures Gapless(part + [delivery], client', c, sub')
  {
    var longer := part + [delivery];
    forall i | 0 <= i < |longer| ensures longer[i].index == longer[0].index + i {}
  }

  lemma DeliverPair(s: State, t: State, g: Gen, c: ClientId, delivery: Delivery, d: ClientId, h: Gen)
    requires Delivered(s, t, g, c, delivery) && d in s.clients
    requires if h < |s.subs| then PairOk(s, d, h) else From(s.clients[d].Log(), h) == []
    ensures if h < |t.subs| then PairOk(t, d, h) else From(t.clients[d].Log(), h) == []
  {
    if d == c {
      FromAppend(s.clients[c].Log(), delivery, h);
      if h == g {
        DeliveryExtends(From(s.clients[c].Log(), g), delivery, s.clients[c], t.clients[c], c, s.subs[g], t.subs[g]);
      }
    } else if h < |s.subs| {
      SamePair(s, t, d, h);
    }
  }

  lemma DeliverKeepsStreams(s: State, t: State, g: Gen, c: ClientId, delivery: Delivery)
    requires Streams(s) && Delivered(s, t, g, c, delivery)
    ensures Streams(t)
  {
    forall d <- t.clients, h: Gen
      ensures if h < |t.subs| then PairOk(t, d, h) else From(t.clients[d].Log(), h) == []
    {
      DeliverPair(s, t, g, c, delivery, d, h);
    }
  }

  lemma SendKeepsStreams(s: State, g: Gen)
    requires Structure(s) && Streams(s) && Enabled(s, Send(g))
    ensures Streams(SendStep(s, g))
  {
    var t := SendStep(s, g);
    var phase := s.subs[g].phase;
    var client := s.clients[phase.targets[0]];
    if !client.Open() {
      forall d <- t.clients, h: Gen | h < |t.subs| ensures PairOk(t, d, h) {
        SamePair(s, t, d, h);
      }
    } else if |client.queue| < SEND_BUFFER_SIZE {
      var consumed := Consumed(s.subs[g]);
      var delivery := Delivery(g, if consumed == [] then 0 else |consumed| - 1, phase.event);
      SendDelivers(s, g, phase.targets[0], delivery);
      DeliverKeepsStreams(s, t, g, phase.targets[0], delivery);
    } else {
      assert t.subs[g].phase.Pending() == phase.Pending();
      SubStepKeepsStreams(s, g, t.subs[g]);
    }
  }

  lemma PhaseKeepsStreams(s: State, g: Gen, phase: Phase)
    requires Structure(s) && Streams(s) && g < |s.subs| && !phase.Holding? && !s.subs[g].phase.Holding?
    requires forall c <- s.clients | s.clients[c].Open() :: c in phase.Pending() <==> c in s.subs[g].phase.Pending()
    ensures Streams(SetPhase(s, g, phase))
  {
    assert Consumed(s.subs[g].(phase := phase)) == Consumed(s.subs[g]);
    SubStepKeepsStreams(s, g, s.subs[g].(phase := phase));
  }

  lemma EvictKeepsStreams(s: State, g: Gen)
    requires Structure(s) && Streams(s) && Enabled(s, Evict(g))
    ensures Streams(EvictStep(s, g))
  {
    var phase := s.subs[g].phase;
    assert ForwarderOk(s, g);
    RestOfPending(phase);
    LeaveKeepsStructure(s, phase.client);
    LeaveKeepsStreams(s, phase.client);
    var t := Leave(s, s.subs[g].conv, phase.client);
    assert !t.clients[phase.client].Open() by {
      assert t.clients[phase.client].Open() <==> t.Registered(phase.client);
    }
    PhaseKeepsStreams(t, g, Broadcasting(phase.event, phase.rest));
  }

  lemma SnapshotKeepsStreams(s: State, g: Gen, order: seq<ClientId>)
    requires Structure(s) && Streams(s) && Enabled(s, Snapshot(g, order))
    ensures Streams(Step(s, Snapshot(g, order)))
  {
    forall c <- s.clients | s.clients[c].Open() && s.clients[c].conv == s.subs[g].conv
      ensures c in order
    {
      assert s.clients[c].Open() <==> s.Registered(c);
      assert c in Members(s, s.subs[g].conv);
    }
    SubStepKeepsStreams(s, g, Step(s, Snapshot(g, order)).subs[g]);
  }

  lemma DequeueKeepsStreams(s: State, c: ClientId)
    requires Structure(s) && Streams(s) && Enabled(s, Dequeue(c))
    ensures Streams(Step(s, Dequeue(c)))
  {
    var t := Step(s, Dequeue(c));
    assert t.clients[c].Log() == s.clients[c].Log();
    forall d <- t.clients, g: Gen | g < |t.subs| ensures PairOk(t, d, g) {
      SamePair(s, t, d, g);
    }
  }

  lemma StepKeepsStreams(s: State, a: Action)
    requires Structure(s) && Streams(s)
    ensures Streams(Step(s, a))
  {
    if Enabled(s, a) {
      match a
      case JoinStep(conv, c) => JoinKeepsStreams(s, conv, c);
      case LeaveStep(c) => LeaveKeepsStreams(s, c);
      case Arrive(g, payload) =>
        ArriveKeepsStructure(s, g, payload);
        SubStepKeepsStreams(s, g, Step(s, a).subs[g]);
      case Pull(g) =>
        PullKeepsStructure(s, g);
        SubStepKeepsStreams(s, g, Step(s, a).subs[g]);
      case Snapshot(g, order) => SnapshotKeepsStreams(s, g, order);
      case Send(g) => SendKeepsStreams(s, g);
      case Evict(g) => EvictKeepsStreams(s, g);
      case Dequeue(c) => DequeueKeepsStreams(s, c);
    }
  }

  lemma {:induction false} RunStreams(actions: seq<Action>)
    ensures Structure(Run(actions)) && Streams(Run(actions))
  {
    HubStructure(actions);
    if actions != [] {
      RunStreams(actions[..|actions| - 1]);
      StepKeepsStreams(Run(actions[..|actions| - 1]), actions[|actions| - 1]);
    }
  }

  lemma GaplessIsSlice(part: seq<Delivery>, whole: seq<Event>)
    requires forall i | 0 <= i < |part| ::
               part[i].index == part[0].index + i < |whole| && part[i].event == whole[part[i].index]
    ensures IsSlice(Events(part), whole)
  {
    if part == [] {
      assert Events(part) == whole[0..0];
    } else {
      var a := part[0].index;
      assert part[|part| - 1].index == a + |part| - 1;
      assert Events(part) == whole[a..a + |part|];
    }
  }

  /**
   No gaps: in every run, what a client is given by one subscription, on its queue and on its socket,
   is an uninterrupted, in-order stretch of the events that subscription's payloads decode to.
   */
  lemma NoGaps(actions: seq<Action>, c: ClientId, g: Gen)
    requires c in Run(actions).clients && g < |Run(actions).subs|
    ensures var client, sub := Run(actions).clients[c], Run(actions).subs[g];
      && IsSlice(Events(From(client.Log(), g)), Decoded(sub.payloads))
      && IsSlice(Events(From(client.written, g)), Decoded(sub.payloads))
  {
    RunStreams(actions);
    var s := Run(actions);
    var client, sub := s.clients[c], s.subs[g];
    assert PairOk(s, c, g) && ForwarderOk(s, g);
    DecodedPrefix(sub.payloads, sub.next);
    FromPrefix(client.written, client.queue, g);
    GaplessIsSlice(From(client.Log(), g), Decoded(sub.payloads));
    GaplessIsSlice(From(client.written, g), Decoded(sub.payloads));
  }

  // ---------------------------------------------------------------- closing

  /** Only the client's own handler or a forwarder that found its queue full unregisters a client. */
  ghost predicate Unregisters(s: State, a: Action, c: ClientId) {
    && s.Registered(c)
    && Enabled(s, a)
    && match a
       case LeaveStep(d) => d == c
       case Evict(g) => s.subs[g].phase.client == c
       case _ => false
  }

  lemma LeaveCloses(s: State, d: ClientId, c: ClientId)
    requires Structure(s) && d in s.clients && c in s.clients
    ensures var t := Leave(s, s.clients[d].conv, d);
      && c in t.clients && t.clients[c].conv == s.clients[c].conv && t.clients[c].Log() == s.clients[c].Log()
      && t.clients[c].closes == s.clients[c].closes + (if c == d && s.Registered(c) then 1 else 0)
  {
    if !s.Registered(d) { LeaveAgain(s, d); }
  }

  /** A step that unregisters nobody leaves a client open or closed, and a closed one as it is. */
  lemma OtherStepsCloseNobody(s: State, a: Action, c: ClientId)
    requires Structure(s) && c in s.clients && !a.LeaveStep? && !a.Evict?
    ensures var t := Step(s, a);
      && c in t.clients && t.clients[c].conv == s.clients[c].conv && t.clients[c].closes == s.clients[c].closes
      && (!s.clients[c].Open() ==> t.clients[c].Log() == s.clients[c].Log())
  {
    if Enabled(s, a) && a.Dequeue? { assert Step(s, a).clients[c].Log() == s.clients[c].Log(); }
  }

  lemma EvictClosesOne(s: State, g: Gen, c: ClientId)
    requires Structure(s) && c in s.clients && Enabled(s, Evict(g))
    ensures var t := EvictStep(s, g);
      && c in t.clients && t.clients[c].conv == s.clients[c].conv && t.clients[c].Log() == s.clients[c].Log()
      && t.clients[c].closes == s.clients[c].closes + (if Unregisters(s, Evict(g), c) then 1 else 0)
  {
    assert ForwarderOk(s, g);
    assert s.subs[g].phase.client in s.subs[g].phase.Pending();
    LeaveCloses(s, s.subs[g].phase.client, c);
  }

  lemma StepClosesOnlyWhenUnregistering(s: State, a: Action, c: ClientId)
    requires Structure(s) && c in s.clients
    ensures var t := Step(s, a);
      && c in t.clients && t.clients[c].conv == s.clients[c].conv
      && t.clients[c].closes == s.clients[c].closes + (if Unregisters(s, a, c) then 1 else 0)
      && (!s.clients[c].Open() ==> t.clients[c].Log() == s.clients[c].Log())
  {
    if Enabled(s, a) {
      match a
      case LeaveStep(d) => LeaveCloses(s, d, c);
      case Evict(g) => EvictClosesOne(s, g, c);
      case _ => OtherStepsCloseNobody(s, a, c);
    }
  }

  lemma StepOnOneClient(s: State, a: Action, c: ClientId)
    requires Structure(s) && c in s.clients
    ensures var t := Step(s, a);
      && c in t.clients
      && (s.Registered(c) && !t.Registered(c) <==> Unregisters(s, a, c))
      && (!s.Registered(c) ==> !t.Registered(c) && t.clients[c].Log() == s.clients[c].Log())
  {
    var t := Step(s, a);
    StepKeepsStructure(s, a);
    StepClosesOnlyWhenUnregistering(s, a, c);
    assert s.clients[c].Open() <==> s.Registered(c);
    assert t.clients[c].Open() <==> t.Registered(c);
  }

  lemma RunOneMore(before: seq<Action>, a: Action)
    ensures Run(before + [a]) == Step(Run(before), a)
  {
    assert (before + [a])[..|before|] == before;
  }

  lemma RunSnoc(actions: seq<Action>, more: seq<Action>)
    requires more != []
    ensures Run(actions + more) == Step(Run(actions + more[..|more| - 1]), more[|more| - 1])
  {
    assert (actions + more)[..|actions + more| - 1] == actions + more[..|more| - 1];
  }

  /** After a client leaves or is evicted, nothing is ever put on its queue again. */
  lemma {:induction false} ClosedClientGetsNothing(actions: seq<Action>, more: seq<Action>, c: ClientId)
    requires c in Run(actions).clients && !Run(actions).clients[c].Open()
    ensures c in Run(actions + more).clients && !Run(actions + more).clients[c].Open()
    ensures Run(actions + more).clients[c].Log() == Run(actions).clients[c].Log()
  {
    if more == [] {
      assert actions + more == actions;
    } else {
      var m := |more| - 1;
      ClosedClientGetsNothing(actions, more[..m], c);
      RunSnoc(actions, more);
      HubStructure(actions + more[..m]);
      HubStructure(actions + more);
      var s, t := Run(actions + more[..m]), Run(actions + more);
      assert s.clients[c].Open() <==> s.Registered(c);
      StepOnOneClient(s, more[m], c);
      assert t.clients[c].Open() <==> t.Registered(c);
    }
  }

  // ---------------------------------------------------------------- nothing missed

  /** The broadcast `sub` is in the middle of is that of `d`. */
  ghost predicate Carries(sub: Sub, d: Delivery) {
    !sub.phase.Idle? && d.event == sub.phase.event && d.index == |Consumed(sub)| - 1
  }

  /** `c` has been given `d`, or is among those its broadcast has still to deal with, or is closed. */
  ghost predicate Kept(s: State, c: ClientId, d: Delivery) {
    && c in s.clients && d.gen < |s.subs|
    && var client, sub := s.clients[c], s.subs[d.gen];
      d in client.Log() || (c in sub.phase.Pending() && Carries(sub, d)) || !client.Open()
  }

  /** What a client was given stays given, and a closed client stays closed. */
  lemma StepKeepsGiven(s: State, a: Action, c: ClientId, d: Delivery)
    requires Structure(s) && c in s.clients && (d in s.clients[c].Log() || !s.clients[c].Open())
    ensures var t := Step(s, a); c in t.clients && (d in t.clients[c].Log() || !t.clients[c].Open())
  {
    StepClosesOnlyWhenUnregistering(s, a, c);
    if Enabled(s, a) && s.clients[c].Open() {
      match a
      case LeaveStep(e) => LeaveCloses(s, e, c);
      case Evict(g) =>
        assert ForwarderOk(s, g);
        LeaveCloses(s, s.subs[g].phase.client, c);
      case Dequeue(e) => assert Step(s, a).clients[c].Log() == s.clients[c].Log();
      case _ =>
    }
  }

  lemma SameSubKeeps(s: State, t: State, c: ClientId, d: Delivery)
    requires d.gen < |s.subs| && d.gen < |t.subs| && c in t.clients
    requires c in s.subs[d.gen].phase.Pending() && Carries(s.subs[d.gen], d)
    requires t.subs[d.gen].phase == s.subs[d.gen].phase && Consumed(t.subs[d.gen]) == Consumed(s.subs[d.gen])
    ensures Kept(t, c, d)
  {}

  lemma DeliveryKeepsPending(s: State, t: State, g: Gen, e: ClientId, given: Delivery, c: ClientId, d: Delivery)
    requires Delivered(s, t, g, e, given) && d.gen < |s.subs| && c in s.clients
    requires c in s.subs[d.gen].phase.Pending() && Carries(s.subs[d.gen], d)
    requires given.event == s.subs[g].phase.event
    requires t.subs[g].phase.Idle? || t.subs[g].phase.event == s.subs[g].phase.event
    ensures Kept(t, c, d)
  {
    if d.gen != g {
      SameSubKeeps(s, t, c, d);
    } else if c == e {
      assert given == d && d in t.clients[c].Log();
    }
  }

  lemma PhaseKeepsPending(s: State, g: Gen, phase: Phase, c: ClientId, d: Delivery)
    requires g < |s.subs| && d.gen < |s.subs| && c in s.clients
    requires c in s.subs[d.gen].phase.Pending() && Carries(s.subs[d.gen], d)
    requires phase.Pending() == s.subs[g].phase.Pending() && phase.Idle? == s.subs[g].phase.Idle?
    requires !phase.Idle? ==> phase.event == s.subs[g].phase.event
    ensures Kept(SetPhase(s, g, phase), c, d)
  {
    var t := SetPhase(s, g, phase);
    assert Consumed(t.subs[g]) == Consumed(s.subs[g]);
    if d.gen != g { SameSubKeeps(s, t, c, d); }
  }

  /** The next target of `g` has room, and takes the event. */
  lemma RoomKeepsPending(s: State, g: Gen, c: ClientId, d: Delivery)
    requires Structure(s) && Enabled(s, Send(g)) && d.gen < |s.subs| && c in s.clients
    requires c in s.subs[d.gen].phase.Pending() && Carries(s.subs[d.gen], d)
    requires var e := s.subs[g].phase.targets[0];
      s.clients[e].Open() && |s.clients[e].queue| < SEND_BUFFER_SIZE
    ensures Kept(SendStep(s, g), c, d)
  {
    var phase := s.subs[g].phase;
    assert ForwarderOk(s, g);
    var given := Delivery(g, |Consumed(s.subs[g])| - 1, phase.event);
    SendDelivers(s, g, phase.targets[0], given);
    assert SendStep(s, g).subs[g].phase == Broadcasting(phase.event, phase.targets[1..]);
    DeliveryKeepsPending(s, SendStep(s, g), g, phase.targets[0], given, c, d);
  }

  lemma SendKeepsPending(s: State, g: Gen, c: ClientId, d: Delivery)
    requires Structure(s) && Enabled(s, Send(g)) && d.gen < |s.subs| && c in s.clients
    requires c in s.subs[d.gen].phase.Pending() && Carries(s.subs[d.gen], d)
    ensures Kept(SendStep(s, g), c, d)
  {
    var phase := s.subs[g].phase;
    var e := phase.targets[0];
    if !s.clients[e].Open() {
      assert SendStep(s, g) == s.(crashed := true);
    } else if |s.clients[e].queue| < SEND_BUFFER_SIZE {
      RoomKeepsPending(s, g, c, d);
    } else {
      var full := Evicting(phase.event, e, phase.targets[1..]);
      assert full.Pending() == phase.Pending();
      PhaseKeepsPending(s, g, full, c, d);
    }
  }

  lemma LeaveOnlyClosesOne(s: State, e: ClientId)
    requires Structure(s) && e in s.clients
    ensures var t := Leave(s, s.clients[e].conv, e); OnlyCloses(s, t, e) && !t.clients[e].Open()
  {
    var t := Leave(s, s.clients[e].conv, e);
    LeaveKeepsStructure(s, e);
    assert t.clients[e].Open() <==> t.Registered(e);
  }

  lemma LeaveKeepsPending(s: State, e: ClientId, c: ClientId, d: Delivery)
    requires Structure(s) && e in s.clients && d.gen < |s.subs| && c in s.clients
    requires c in s.subs[d.gen].phase.Pending() && Carries(s.subs[d.gen], d)
    ensures var t := Leave(s, s.clients[e].conv, e);
      && |t.subs| == |s.subs| && c in t.clients && Kept(t, c, d)
      && c in t.subs[d.gen].phase.Pending() && Carries(t.subs[d.gen], d) && (c == e ==> !t.clients[c].Open())
  {
    var t := Leave(s, s.clients[e].conv, e);
    LeaveOnlyClosesOne(s, e);
    assert t.subs[d.gen] == s.subs[d.gen].(closes := t.subs[d.gen].closes);
    assert Consumed(t.subs[d.gen]) == Consumed(s.subs[d.gen]);
  }

  /** Going on to the rest of the targets loses nobody but the first. */
  lemma RestKeepsPending(s: State, g: Gen, c: ClientId, d: Delivery)
    requires g < |s.subs| && s.subs[g].phase.Evicting? && Distinct(s.subs[g].phase.Pending()) && Kept(s, c, d)
    requires c == s.subs[g].phase.client ==> !s.clients[c].Open()
    ensures var phase := s.subs[g].phase;
      Kept(SetPhase(s, g, Broadcasting(phase.event, phase.rest)), c, d)
  {
    var phase := s.subs[g].phase;
    RestOfPending(phase);
    assert Consumed(s.subs[g].(phase := Broadcasting(phase.event, phase.rest))) == Consumed(s.subs[g]);
  }

  lemma EvictKeepsPending(s: State, g: Gen, c: ClientId, d: Delivery)
    requires Structure(s) && Enabled(s, Evict(g)) && d.gen < |s.subs| && c in s.clients
    requires c in s.subs[d.gen].phase.Pending() && Carries(s.subs[d.gen], d)
    ensures Kept(EvictStep(s, g), c, d)
  {
    var e := s.subs[g].phase.client;
    assert ForwarderOk(s, g);
    LeaveKeepsStructure(s, e);
    LeaveKeepsPending(s, e, c, d);
    RestKeepsPending(Leave(s, s.subs[g].conv, e), g, c, d);
  }

  lemma StepKeepsPending(s: State, a: Action, c: ClientId, d: Delivery)
    requires Structure(s) && Enabled(s, a) && d.gen < |s.subs| && c in s.clients
    requires c in s.subs[d.gen].phase.Pending() && Carries(s.subs[d.gen], d)
    ensures Kept(Step(s, a), c, d)
  {
    match a
    case Send(g) => SendKeepsPending(s, g, c, d);
    case Evict(g) => EvictKeepsPending(s, g, c, d);
    case LeaveStep(e) => LeaveKeepsPending(s, e, c, d);
    case Arrive(g, payload) =>
      ArriveKeepsStructure(s, g, payload);
      SameSubKeeps(s, Step(s, a), c, d);
    case _ => SameSubKeeps(s, Step(s, a), c, d);
  }

  lemma LeaveKeepsSubCount(s: State, conv: ConvId, c: ClientId)
    requires SubsInRange(s) && c in s.clients
    ensures |Leave(s, conv, c).subs| == |s.subs|
  {}

  lemma StepKeepsSubs(s: State, a: Action)
    requires Structure(s)
    ensures |Step(s, a).subs| >= |s.subs|
  {
    if Enabled(s, a) {
      match a
      case LeaveStep(c) => LeaveKeepsSubCount(s, s.clients[c].conv, c);
      case Evict(g) => LeaveKeepsSubCount(s, s.subs[g].conv, s.subs[g].phase.client);
      case _ =>
    }
  }

  lemma StepKeeps(s: State, a: Action, c: ClientId, d: Delivery)
    requires Structure(s) && Kept(s, c, d)
    ensures Kept(Step(s, a), c, d)
  {
    if d in s.clients[c].Log() || !s.clients[c].Open() {
      StepKeepsGiven(s, a, c, d);
      StepKeepsSubs(s, a);
    } else if Enabled(s, a) {
      StepKeepsPending(s, a, c, d);
    }
  }

  lemma {:induction false} RunKeeps(actions: seq<Action>, more: seq<Action>, c: ClientId, d: Delivery)
    requires Kept(Run(actions), c, d)
    ensures Kept(Run(actions + more), c, d)
  {
    if more == [] {
      assert actions + more == actions;
    } else {
      var m := |more| - 1;
      RunKeeps(actions, more[..m], c, d);
      RunSnoc(actions, more);
      HubStructure(actions + more[..m]);
      StepKeeps(Run(actions + more[..m]), more[m], c, d);
    }
  }

  lemma SnapshotKept(s: State, g: Gen, order: seq<ClientId>, c: ClientId)
    requires Structure(s) && Enabled(s, Snapshot(g, order)) && c in Members(s, s.subs[g].conv)
    ensures var consumed := Consumed(s.subs[g]);
      && consumed != []
      && Kept(Step(s, Snapshot(g, order)), c, Delivery(g, |consumed| - 1, consumed[|consumed| - 1]))
  {
    var t := Step(s, Snapshot(g, order));
    assert ForwarderOk(s, g);
    assert c in Elements(order);
    assert Consumed(t.subs[g]) == Consumed(s.subs[g]);
  }

  lemma SelectedKept(before: seq<Action>, g: Gen, order: seq<ClientId>, c: ClientId)
    requires var s := Run(before); Enabled(s, Snapshot(g, order)) && c in Members(s, s.subs[g].conv)
    ensures var consumed := Consumed(Run(before).subs[g]);
      && consumed != []
      && Kept(Run(before + [Snapshot(g, order)]), c, Delivery(g, |consumed| - 1, consumed[|consumed| - 1]))
  {
    HubStructure(before);
    RunOneMore(before, Snapshot(g, order));
    SnapshotKept(Run(before), g, order, c);
  }

  /**
   Nothing is missed. A client that is registered when a forwarder takes the snapshot for an event is,
   at every later moment of every run, one that has been given that very event, or one that this
   broadcast has still to deal with, or one that is closed. With `NoGaps`, a stream starts with the
   first snapshot after the client joined and reaches the present.
   */
  lemma NothingMissed(before: seq<Action>, g: Gen, order: seq<ClientId>, more: seq<Action>, c: ClientId)
    requires var s := Run(before); Enabled(s, Snapshot(g, order)) && c in Members(s, s.subs[g].conv)
    ensures var s, t := Run(before), Run(before + [Snapshot(g, order)] + more);
      var consumed := Consumed(s.subs[g]);
      && consumed != [] && c in t.clients && g < |t.subs|
      && var d := Delivery(g, |consumed| - 1, consumed[|consumed| - 1]);
        || d in t.clients[c].Log()
        || (c in t.subs[g].phase.Pending() && |Consumed(t.subs[g])| == |consumed|)
        || !t.clients[c].Open()
  {
    var consumed := Consumed(Run(before).subs[g]);
    SelectedKept(before, g, order, c);
    RunKeeps(before + [Snapshot(g, order)], more, c, Delivery(g, |consumed| - 1, consumed[|consumed| - 1]));
  }

  // ---------------------------------------------------------------- progress

  lemma {:induction false} HasOrder(members: set<ClientId>) returns (order: seq<ClientId>)
    ensures Distinct(order) && Elements(order) == members
  {
    order := [];
    if members != {} {
      var c :| c in members;
      var rest := HasOrder(members - {c});
      assert c !in Elements(rest);
      order := rest + [c];
      assert Elements(order) == Elements(rest) + {c};
    }
  }

  /** The forwarder's own steps, as far as the machine leaves it a choice. */
  predicate StepOf(a: Action, g: Gen) {
    a == Pull(g) || (a.Snapshot? && a.gen == g) || a == Send(g) || a == Evict(g)
  }

  /** What forwarder `g` has still to do; each of its steps takes some of it away. */
  function Work(s: State, g: Gen): (nat, nat, nat) requires g < |s.subs| {
    var sub := s.subs[g];
    (if sub.next <= |sub.payloads| then |sub.payloads| - sub.next else 0,
     if sub.phase.Holding? then 1 else 0,
     match sub.phase
     case Sending(_, targets) => 2 * |targets|
     case Evicting(_, _, rest) => 2 * |rest| + 1
     case _ => 0)
  }

  /** Less of the first, or as much of it and less of the second, or of both and less of the third. */
  predicate LessWork(v: (nat, nat, nat), w: (nat, nat, nat)) {
    v.0 < w.0 || (v.0 == w.0 && (v.1 < w.1 || (v.1 == w.1 && v.2 < w.2)))
  }

  lemma OwnStepWorks(s: State, a: Action, g: Gen)
    requires Structure(s) && g < |s.subs| && StepOf(a, g) && Enabled(s, a) && !Step(s, a).crashed
    ensures g < |Step(s, a).subs| && LessWork(Work(Step(s, a), g), Work(s, g))
  {
    assert ForwarderOk(s, g);
    match a
    case Pull(_) =>
    case Snapshot(_, _) =>
    case Send(_) => RestOfTargets(s.subs[g].phase);
    case Evict(_) =>
      RestOfPending(s.subs[g].phase);
      assert s.subs[g].phase.client in s.subs[g].phase.Pending();
      LeaveOnlyClosesOne(s, s.subs[g].phase.client);
  }

  /**
   A forwarder is never stuck: as long as it has a payload to fetch or a broadcast to finish, a step of
   its own is possible, and leaves it with less to do unless it crashes the process.
   */
  lemma ForwarderNeverStuck(s: State, g: Gen)
    requires Structure(s) && !s.crashed && g < |s.subs|
    requires !s.subs[g].phase.Idle? || s.subs[g].next < |s.subs[g].payloads|
    ensures exists a: Action ::
      StepOf(a, g) && Enabled(s, a)
      && (Step(s, a).crashed || (g < |Step(s, a).subs| && LessWork(Work(Step(s, a), g), Work(s, g))))
  {
    var phase := s.subs[g].phase;
    assert ForwarderOk(s, g);
    var order := HasOrder(Members(s, s.subs[g].conv));
    var a: Action;
    match phase {
      case Idle => a := Pull(g);
      case Holding(_) => a := Snapshot(g, order);
      case Sending(_, targets) =>
        assert targets[0] in phase.Pending();
        a := Send(g);
      case Evicting(_, client, _) =>
        assert client in phase.Pending();
        a := Evict(g);
    }
    assert Enabled(s, a);
    if !Step(s, a).crashed { OwnStepWorks(s, a, g); }
  }

  // ---------------------------------------------------------------- the write pump

  /** How many of the actions are turns of the write pump of `c`. */
  function PumpTurns(actions: seq<Action>, c: ClientId): nat {
    if actions == [] then 0
    else
      var n := |actions| - 1;
      PumpTurns(actions[..n], c) + if actions[n] == Dequeue(c) then 1 else 0
  }

  /** A turn of the write pump takes the oldest event off the queue and onto the socket. */
  lemma DequeueWrites(s: State, c: ClientId)
    requires Enabled(s, Dequeue(c))
    ensures var client, client' := s.clients[c], Step(s, Dequeue(c)).clients[c];
      SubsInRange(s) ==>
        client'.Log() == client.Log() && client'.written == client.Log()[..|client.written| + 1]
  {}

  ghost predicate OnlyQueuesMore(client: Client, client': Client) {
    client'.written == client.written && client.queue <= client'.queue
  }

  lemma LeaveKeepsQueue(s: State, d: ClientId, c: ClientId)
    requires SubsInRange(s) && d in s.clients && c in s.clients
    ensures var t := Leave(s, s.clients[d].conv, d); c in t.clients && OnlyQueuesMore(s.clients[c], t.clients[c])
  {}

  lemma SendQueuesMore(s: State, g: Gen, c: ClientId)
    requires Enabled(s, Send(g)) && c in s.clients
    ensures var t := SendStep(s, g); c in t.clients && OnlyQueuesMore(s.clients[c], t.clients[c])
  {}

  lemma OtherStepsKeepWritten(s: State, a: Action, c: ClientId)
    requires Structure(s) && c in s.clients && a != Dequeue(c)
    ensures var t := Step(s, a); c in t.clients && OnlyQueuesMore(s.clients[c], t.clients[c])
  {
    if Enabled(s, a) {
      match a
      case LeaveStep(d) => LeaveKeepsQueue(s, d, c);
      case Evict(g) =>
        assert s.clients[s.subs[g].phase.client].conv == s.subs[g].conv by {
          assert ForwarderOk(s, g);
          assert s.subs[g].phase.client in s.subs[g].phase.Pending();
        }
        LeaveKeepsQueue(s, s.subs[g].phase.client, c);
      case Send(g) => SendQueuesMore(s, g, c);
      case _ =>
    }
  }

  /** `log` has been put on the queue of `c`, and the first `n` of it have reached the socket. */
  ghost predicate WrittenUpTo(s: State, c: ClientId, log: seq<Delivery>, n: nat) {
    && c in s.clients && log <= s.clients[c].Log() && |s.clients[c].written| >= (if n <= |log| then n else |log|)
  }

  lemma StepWrites(s: State, a: Action, c: ClientId, log: seq<Delivery>, n: nat)
    requires Structure(s) && WrittenUpTo(s, c, log, n) && !s.crashed
    ensures WrittenUpTo(Step(s, a), c, log, if a == Dequeue(c) then n + 1 else n)
  {
    if a != Dequeue(c) {
      OtherStepsKeepWritten(s, a, c);
    } else if Enabled(s, a) {
      DequeueWrites(s, c);
    } else {
      assert s.clients[c].Log() == s.clients[c].written;
    }
  }

  lemma {:induction false} RunWrites(actions: seq<Action>, more: seq<Action>, c: ClientId)
    requires c in Run(actions).clients && !Run(actions + more).crashed
    ensures var client := Run(actions).clients[c];
      WrittenUpTo(Run(actions + more), c, client.Log(), |client.written| + PumpTurns(more, c))
  {
    if more == [] {
      assert actions + more == actions;
    } else {
      var m := |more| - 1;
      var client := Run(actions).clients[c];
      RunSnoc(actions, more);
      RunWrites(actions, more[..m], c);
      HubStructure(actions + more[..m]);
      StepWrites(Run(actions + more[..m]), more[m], c, client.Log(), |client.written| + PumpTurns(more[..m], c));
    }
  }

  /**
   Everything put on a client's queue reaches its socket, in order: once the write pump has had as many
   turns as the queue was long, whatever else happened in between, what was queued is written.
   */
  lemma QueuedIsWritten(actions: seq<Action>, more: seq<Action>, c: ClientId)
    requires c in Run(actions).clients && !Run(actions + more).crashed
    requires PumpTurns(more, c) >= |Run(actions).clients[c].queue|
    ensures var t := Run(actions + more);
      c in t.clients && Run(actions).clients[c].Log() <= t.clients[c].written
  {
    RunWrites(actions, more, c);
    var log, client := Run(actions).clients[c].Log(), Run(actions + more).clients[c];
    assert client.written == client.Log()[..|client.written|];
  }

  // ---------------------------------------------------------------- crashing

  ghost predicate UnregistersAt(actions: seq<Action>, more: seq<Action>, c: ClientId, j: nat) requires j < |more| {
    Unregisters(Run(actions + more[..j]), more[j], c)
  }

  /** Some step of `more`, taken after `actions`, unregisters `c`. */
  ghost predicate UnregisteredDuring(actions: seq<Action>, more: seq<Action>, c: ClientId) {
    exists j: nat :: j < |more| && UnregistersAt(actions, more, c, j)
  }

  lemma UnregistersAtPrefix(actions: seq<Action>, more: seq<Action>, c: ClientId, m: nat, j: nat)
    requires j < m <= |more|
    ensures UnregistersAt(actions, more[..m], c, j) == UnregistersAt(actions, more, c, j)
  {
    assert more[..m][..j] == more[..j];
  }

  lemma UnregisteredDuringSnoc(actions: seq<Action>, more: seq<Action>, c: ClientId)
    requires more != []
    ensures var m := |more| - 1;
      UnregisteredDuring(actions, more, c) <==>
      UnregisteredDuring(actions, more[..m], c) || UnregistersAt(actions, more, c, m)
  {
    var m := |more| - 1;
    forall j: nat | j < m
      ensures UnregistersAt(actions, more[..m], c, j) == UnregistersAt(actions, more, c, j)
    {
      UnregistersAtPrefix(actions, more, c, m, j);
    }
  }

  lemma {:induction false} RegisteredUntilUnregistered(actions: seq<Action>, more: seq<Action>, c: ClientId)
    requires Run(actions).Registered(c)
    ensures c in Run(actions + more).clients
    ensures Run(actions + more).Registered(c) <==> !UnregisteredDuring(actions, more, c)
  {
    if more == [] {
      assert actions + more == actions;
    } else {
      var m := |more| - 1;
      RegisteredUntilUnregistered(actions, more[..m], c);
      UnregisteredDuringSnoc(actions, more, c);
      RunSnoc(actions, more);
      HubStructure(actions + more[..m]);
      StepOnOneClient(Run(actions + more[..m]), more[m], c);
    }
  }

  /**
   Exactly when the process crashes. Take any run, let forwarder `g` select its targets with a
   snapshot that includes `c`, and let anything happen until `g` is about to send that event to `c`.
   The send finds the queue closed, and panics, if and only if `c` was unregistered in between, by its
   own handler or by a forwarder. In particular a client still registered is always safe to send to.
   */
  lemma CrashExactly(before: seq<Action>, g: Gen, order: seq<ClientId>, between: seq<Action>, c: ClientId)
    requires Enabled(Run(before), Snapshot(g, order)) && c in order
    requires var s := Run(before + [Snapshot(g, order)] + between);
      Enabled(s, Send(g)) && s.subs[g].phase.targets[0] == c
    ensures var selected := before + [Snapshot(g, order)];
      && (Step(Run(selected + between), Send(g)).crashed <==> UnregisteredDuring(selected, between, c))
      && (Run(selected + between).Registered(c) ==> Run(selected + between).clients[c].Open())
  {
    var selected := before + [Snapshot(g, order)];
    HubStructure(before);
    RunSnoc(before, [Snapshot(g, order)]);
    assert before + [Snapshot(g, order)][..0] == before;
    assert c in Members(Run(before), Run(before).subs[g].conv) by {
      assert c in Elements(order);
    }
    assert Run(selected).Registered(c);
    RegisteredUntilUnregistered(selected, between, c);
    HubStructure(selected + between);
    var s := Run(selected + between);
    assert s.clients[c].Open() <==> s.Registered(c);
  }

  // ---------------------------------------------------------------- crashes of whole runs

  lemma SendTakesTargets(s: State, h: Gen, g: Gen, c: ClientId)
    requires Structure(s) && Enabled(s, Send(h)) && g < |s.subs| && c in SendStep(s, h).subs[g].phase.Pending()
    ensures c in s.subs[g].phase.Pending()
  {
    var phase := s.subs[h].phase;
    assert ForwarderOk(s, h);
    RestOfTargets(phase);
    assert phase.Pending() == [phase.targets[0]] + phase.targets[1..];
  }

  lemma EvictTakesTargets(s: State, h: Gen, g: Gen, c: ClientId)
    requires Structure(s) && Enabled(s, Evict(h)) && g < |EvictStep(s, h).subs|
    requires c in EvictStep(s, h).subs[g].phase.Pending()
    ensures g < |s.subs| && c in s.subs[g].phase.Pending()
  {
    var phase := s.subs[h].phase;
    assert ForwarderOk(s, h);
    RestOfPending(phase);
    LeaveKeepsStructure(s, phase.client);
  }

  /** The action is a snapshot by `g` that selects `c`. */
  predicate SelectsClient(a: Action, g: Gen, c: ClientId) { a.Snapshot? && a.gen == g && c in a.order }

  lemma PendingBefore(s: State, a: Action, g: Gen, c: ClientId)
    requires Structure(s) && g < |Step(s, a).subs| && c in Step(s, a).subs[g].phase.Pending()
    ensures (Enabled(s, a) && SelectsClient(a, g, c)) || (g < |s.subs| && c in s.subs[g].phase.Pending())
  {
    if Enabled(s, a) {
      match a
      case Send(h) => SendTakesTargets(s, h, g, c);
      case Evict(h) => EvictTakesTargets(s, h, g, c);
      case LeaveStep(d) => LeaveKeepsStructure(s, d);
      case _ =>
    }
  }

  /** Step `n` of the run is a snapshot by `g` that selects `c`. */
  ghost predicate SelectedAt(actions: seq<Action>, n: nat, g: Gen, c: ClientId) requires n < |actions| {
    Enabled(Run(actions[..n]), actions[n]) && SelectsClient(actions[n], g, c)
  }

  lemma SelectedAtPrefix(actions: seq<Action>, m: nat, n: nat, g: Gen, c: ClientId)
    requires n < m <= |actions|
    ensures SelectedAt(actions[..m], n, g, c) <==> SelectedAt(actions, n, g, c)
  {
    assert actions[..m][..n] == actions[..n];
  }

  /** Whoever a forwarder has still to deal with was selected earlier in the run. */
  lemma {:induction false} PendingWasSelected(actions: seq<Action>, g: Gen, c: ClientId) returns (n: nat)
    requires g < |Run(actions).subs| && c in Run(actions).subs[g].phase.Pending()
    ensures n < |actions| && SelectedAt(actions, n, g, c)
  {
    var m := |actions| - 1;
    var before := actions[..m];
    HubStructure(before);
    PendingBefore(Run(before), actions[m], g, c);
    if SelectsClient(actions[m], g, c) && Enabled(Run(before), actions[m]) {
      n := m;
    } else {
      n := PendingWasSelected(before, g, c);
      SelectedAtPrefix(actions, m, n, g, c);
    }
  }

  /** Forwarder `g` is about to send to `c`. */
  ghost predicate SendsTo(s: State, g: Gen, c: ClientId) {
    Enabled(s, Send(g)) && s.subs[g].phase.targets[0] == c
  }

  lemma SplitAt(actions: seq<Action>, n: nat)
    requires n < |actions|
    ensures actions[..n] + [actions[n]] == actions[..n + 1]
    ensures actions[..n] + [actions[n]] + actions[n + 1..] == actions
  {}

  /** The equivalence for a selection at step `n` of a run. */
  lemma CrashExactlySince(actions: seq<Action>, n: nat, g: Gen, c: ClientId)
    requires SendsTo(Run(actions), g, c) && n < |actions| && SelectedAt(actions, n, g, c)
    ensures Step(Run(actions), Send(g)).crashed <==> UnregisteredDuring(actions[..n + 1], actions[n + 1..], c)
  {
    SplitAt(actions, n);
    assert actions[n] == Snapshot(g, actions[n].order);
    CrashExactly(actions[..n], g, actions[n].order, actions[n + 1..], c);
  }

  /** Step `m` sends to a client that step `n` selected. */
  ghost predicate SelectedSend(actions: seq<Action>, n: nat, m: nat, c: ClientId) requires n < m < |actions| {
    && actions[m].Send? && SendsTo(Run(actions[..m]), actions[m].gen, c)
    && SelectedAt(actions, n, actions[m].gen, c)
  }

  /** And the client was unregistered in between. */
  ghost predicate FatalSend(actions: seq<Action>, n: nat, m: nat, c: ClientId) requires n < m < |actions| {
    SelectedSend(actions, n, m, c) && UnregisteredDuring(actions[..n + 1], actions[n + 1..m], c)
  }

  lemma FatalSendPrefix(actions: seq<Action>, k: nat, n: nat, m: nat, c: ClientId)
    requires n < m < k <= |actions|
    ensures FatalSend(actions[..k], n, m, c) <==> FatalSend(actions, n, m, c)
  {
    assert actions[..k][..m] == actions[..m] && actions[..k][..n] == actions[..n];
    assert actions[..k][..n + 1] == actions[..n + 1] && actions[..k][n + 1..m] == actions[n + 1..m];
  }

  lemma OnlySendsCrash(s: State, a: Action)
    requires !s.crashed && Step(s, a).crashed
    ensures a.Send? && SendsTo(s, a.gen, s.subs[a.gen].phase.targets[0])
  {}

  lemma SendCrashesExactly(actions: seq<Action>, n: nat, m: nat, c: ClientId)
    requires n < m < |actions| && SelectedSend(actions, n, m, c)
    ensures FatalSend(actions, n, m, c) <==> Run(actions[..m + 1]).crashed
  {
    var before, g := actions[..m], actions[m].gen;
    SelectedAtPrefix(actions, m, n, g, c);
    CrashExactlySince(before, n, g, c);
    assert before[..n + 1] == actions[..n + 1] && before[n + 1..] == actions[n + 1..m];
    RunOneMore(before, actions[m]);
    SplitAt(actions, m);
  }

  lemma {:induction false} CrashIsForEver(actions: seq<Action>, m: nat)
    requires m <= |actions| && Run(actions[..m]).crashed
    ensures Run(actions).crashed
  {
    var k := |actions| - 1;
    if m <= k {
      assert actions[..k][..m] == actions[..m];
      CrashIsForEver(actions[..k], m);
    } else {
      assert actions[..m] == actions;
    }
  }

  /** The step that crashed the process is there to be found. */
  lemma {:induction false} CrashHasFatalSend(actions: seq<Action>) returns (n: nat, m: nat, c: ClientId)
    requires Run(actions).crashed
    ensures n < m < |actions| && FatalSend(actions, n, m, c)
  {
    var k := |actions| - 1;
    var before, s := actions[..k], Run(actions[..k]);
    if s.crashed {
      n, m, c := CrashHasFatalSend(before);
      FatalSendPrefix(actions, k, n, m, c);
    } else {
      OnlySendsCrash(s, actions[k]);
      m, c := k, s.subs[actions[k].gen].phase.targets[0];
      n := PendingWasSelected(before, actions[k].gen, c);
      SelectedAtPrefix(actions, k, n, actions[k].gen, c);
      assert actions[..k + 1] == actions;
      SendCrashesExactly(actions, n, m, c);
    }
  }

  lemma FatalSendCrashes(actions: seq<Action>, n: nat, m: nat, c: ClientId)
    requires n < m < |actions| && FatalSend(actions, n, m, c)
    ensures Run(actions).crashed
  {
    SendCrashesExactly(actions, n, m, c);
    CrashIsForEver(actions, m + 1);
  }

  /**
   The process has crashed after a run if and only if some step of the run sent to a client that an
   earlier snapshot of the same forwarder selected and that was unregistered in between.
   */
  lemma RunCrashesExactly(actions: seq<Action>)
    ensures Run(actions).crashed <==>
            exists n: nat, m: nat, c: ClientId :: n < m < |actions| && FatalSend(actions, n, m, c)
  {
    if Run(actions).crashed {
      var n, m, c := CrashHasFatalSend(actions);
    }
    if n: nat, m: nat, c: ClientId :| n < m < |actions| && FatalSend(actions, n, m, c) {
      FatalSendCrashes(actions, n, m, c);
    }
  }

  lemma LeaveEndsStream(s: State, c: ClientId)
    requires Structure(s) && c in s.clients && s.clients[c].Open()
    ensures var t := Leave(s, s.clients[c].conv, c);
      && c in t.clients && !t.Registered(c) && t.clients[c].closes == 1 && t.clients[c].Log() == s.clients[c].Log()
      && |t.subs| == |s.subs|
  {
    LeaveKeepsStructure(s, c);
    assert s.clients[c].Open() <==> s.Registered(c);
    LeaveCloses(s, c, c);
  }

  lemma EvictCloses(s: State, g: Gen)
    requires Structure(s) && Enabled(s, Evict(g)) && s.clients[s.subs[g].phase.client].Open()
    ensures var c := s.subs[g].phase.client;
      var t := EvictStep(s, g);
      && c in t.clients && !t.Registered(c) && t.clients[c].closes == 1 && t.clients[c].Log() == s.clients[c].Log()
      && g < |t.subs| && t.subs[g].phase.Pending() == s.subs[g].phase.rest
  {
    var phase := s.subs[g].phase;
    assert s.clients[phase.client].conv == s.subs[g].conv by {
      assert ForwarderOk(s, g);
      assert phase.client in phase.Pending();
    }
    LeaveEndsStream(s, phase.client);
    var left := Leave(s, s.subs[g].conv, phase.client);
    assert EvictStep(s, g) == SetPhase(left, g, Broadcasting(phase.event, phase.rest));
  }

  /** A client whose queue is full is not skipped: its stream ends, closed and unregistered, here. */
  lemma FullQueueIsEvicted(s: State, g: Gen)
    requires Structure(s) && Enabled(s, Send(g))
    requires var client := s.clients[s.subs[g].phase.targets[0]];
      client.Open() && |client.queue| == SEND_BUFFER_SIZE
    ensures var c := s.subs[g].phase.targets[0];
      var t := Step(Step(s, Send(g)), Evict(g));
      && c in t.clients && !t.Registered(c) && t.clients[c].closes == 1 && t.clients[c].Log() == s.clients[c].Log()
      && g < |t.subs| && t.subs[g].phase.Pending() == s.subs[g].phase.targets[1..]
  {
    var phase := s.subs[g].phase;
    var full := Step(s, Send(g));
    SendKeepsStructure(s, g);
    assert full == SetPhase(s, g, Evicting(phase.event, phase.targets[0], phase.targets[1..]));
    EvictCloses(full, g);
  }

  /** Client 1 alone in conversation 7, with its only subscription in the given state. */
  ghost function Alone(payloads: seq<Payload>, next: nat, phase: Phase): State {
    State(map[7 := {1}], map[7 := 0], map[1 := Client(7, [], [], 0)], [Sub(7, payloads, next, phase, 0)], false)
  }

  lemma AloneJoins()
    ensures Step(INIT, JoinStep(7, 1)) == Alone([], 0, Idle)
  {
    assert {} + {1} == {1};
  }

  lemma AloneIsSelected(event: Event)
    ensures var payloads := [Decodable(event)];
      && Step(Alone([], 0, Idle), Arrive(0, Decodable(event))) == Alone(payloads, 0, Idle)
      && Step(Alone(payloads, 0, Idle), Pull(0)) == Alone(payloads, 1, Holding(event))
      && Step(Alone(payloads, 1, Holding(event)), Snapshot(0, [1])) == Alone(payloads, 1, Sending(event, [1]))
  {
    assert [] + [Decodable(event)] == [Decodable(event)];
    assert Elements([1]) == {1};
  }

  lemma AloneLeaves(payloads: seq<Payload>, phase: Phase)
    requires phase.Sending? && phase.targets == [1]
    ensures var s := Alone(payloads, 1, phase);
      Step(Step(s, LeaveStep(1)), Send(0)).crashed
  {
    var s := Alone(payloads, 1, phase);
    var t := Step(s, LeaveStep(1));
    assert t == Leave(s, 7, 1);
    assert {1} - {1} == {};
    assert t.clients[1].closes == 1 && t.subs[0].phase == phase;
  }

  lemma RunOfTwo(a: Action, b: Action)
    ensures Run([a, b]) == Step(Step(INIT, a), b)
  {
    RunOneMore([], a);
    RunOneMore([a], b);
    assert [] + [a] == [a] && [a] + [b] == [a, b];
  }

  lemma RunOfThree(a: Action, b: Action, c: Action)
    ensures Run([a, b, c]) == Step(Step(Step(INIT, a), b), c)
  {
    RunOfTwo(a, b);
    RunOneMore([a, b], c);
    assert [a, b] + [c] == [a, b, c];
  }

  lemma RunOfSix(a: Action, b: Action, c: Action, d: Action, e: Action, f: Action)
    ensures Run([a, b, c, d, e, f]) == Step(Step(Step(Run([a, b, c]), d), e), f)
  {
    RunOneMore([a, b, c], d);
    RunOneMore([a, b, c, d], e);
    RunOneMore([a, b, c, d, e], f);
    assert [a, b, c] + [d] == [a, b, c, d];
    assert [a, b, c, d] + [e] == [a, b, c, d, e] && [a, b, c, d, e] + [f] == [a, b, c, d, e, f];
  }

  /** "The process never crashes" is false: a client may leave between its selection and the send. */
  lemma CrashIsReachable(event: Event)
    ensures Run([JoinStep(7, 1), Arrive(0, Decodable(event)), Pull(0), Snapshot(0, [1]), LeaveStep(1), Send(0)]).crashed
  {
    AloneJoins();
    AloneIsSelected(event);
    AloneLeaves([Decodable(event)], Sending(event, [1]));
    RunOfThree(JoinStep(7, 1), Arrive(0, Decodable(event)), Pull(0));
    RunOfSix(JoinStep(7, 1), Arrive(0, Decodable(event)), Pull(0), Snapshot(0, [1]), LeaveStep(1), Send(0));
  }
}
