/**
 Presence: connections counted per user in one server process, next to the shared Redis set of online
 users. A failed connection attempt is never undone by the handler, and any Redis command may fail.
 */
module Presence {
  import opened Common

  /** What becomes of a Redis write: it may take effect without the server ever hearing of it. */
  datatype Outcome = Outcome(applied: bool, answered: bool)

  const FINE := Outcome(true, true)

  datatype State = State(counts: map<UserId, nat>, online: set<UserId>)

  function Count(s: State, u: UserId): nat { if u in s.counts then s.counts[u] else 0 }

  /** Only a user's first connection is announced. */
  function Connected(s: State, u: UserId, redis: Outcome): (State, bool) {
    var t := s.(counts := s.counts[u := Count(s, u) + 1]);
    if Count(t, u) > 1 then (t, true)
    else (t.(online := if redis.applied then s.online + {u} else s.online), redis.answered)
  }

  /** Only a user's last disconnection is announced. */
  function Disconnected(s: State, u: UserId, redis: Outcome): (State, bool) {
    if Count(s, u) <= 1 then
      (State(s.counts - {u}, if redis.applied then s.online - {u} else s.online), redis.answered)
    else (s.(counts := s.counts[u := Count(s, u) - 1]), true)
  }

  class Service {
    var counts: map<UserId, nat>
    var online: set<UserId>

    ghost function View(): State reads this { State(counts, online) }

    constructor ()
      ensures View() == State(map[], {})
    {
      counts, online := map[], {};
    }

    method Connect(u: UserId, redis: Outcome) returns (ok: bool)
      modifies this
      ensures (View(), ok) == Connected(old(View()), u, redis)
      ensures Count(View(), u) == old(Count(View(), u)) + 1
      ensures forall v | v != u :: Count(View(), v) == old(Count(View(), v))
      ensures old(Count(View(), u)) >= 1 ==> ok && online == old(online)
      ensures old(Count(View(), u)) == 0 ==>
        ok == redis.answered && online == if redis.applied then old(online) + {u} else old(online)
    {
      counts := counts[u := (if u in counts then counts[u] else 0) + 1];
      if counts[u] > 1 {
        return true;
      }
      if redis.applied {
        online := online + {u};
      }
      ok := redis.answered;
    }

    method Disconnect(u: UserId, redis: Outcome) returns (ok: bool)
      modifies this
      ensures (View(), ok) == Disconnected(old(View()), u, redis)
      ensures forall v | v != u :: Count(View(), v) == old(Count(View(), v))
      ensures old(Count(View(), u)) >= 2 ==>
        ok && online == old(online) && Count(View(), u) == old(Count(View(), u)) - 1
      ensures old(Count(View(), u)) <= 1 ==>
        && ok == redis.answered && u !in counts
        && online == if redis.applied then old(online) - {u} else old(online)
    {
      if (if u in counts then counts[u] else 0) <= 1 {
        counts := counts - {u};
        if redis.applied {
          online := online - {u};
        }
        return redis.answered;
      }
      counts := counts[u := counts[u] - 1];
      ok := true;
    }

    /** One membership answer per asked user, in order, turned into a map. Nobody asked about, nothing can fail. */
    method Statuses(users: seq<UserId>, redisFails: bool) returns (found: Option<map<UserId, bool>>)
      ensures found.None? <==> users != [] && redisFails
      ensures found.Some? ==>
        && found.value.Keys == Elements(users)
        && forall u <- users :: found.value[u] <==> u in online
    {
      var statuses: map<UserId, bool> := map[];
      if |users| == 0 {
        return Some(statuses);
      }
      if redisFails {
        return None;
      }
      var members := online;
      var results := seq(|users|, i requires 0 <= i < |users| => users[i] in members);
      for i := 0 to |users|
        invariant statuses.Keys == Elements(users[..i])
        invariant forall u <- statuses :: statuses[u] <==> u in online
      {
        ElementsSnoc(users, i);
        statuses := statuses[users[i] := results[i]];
      }
      assert users[..|users|] == users;
      found := Some(statuses);
    }
  }

  // ---------------------------------------------------------------- runs of the socket handler

  type SocketId = nat

  /** `live` are the sockets whose handler is past Connect; `failed` counts Connect calls that failed. */
  datatype World = World(presence: State, live: map<SocketId, UserId>, failed: map<UserId, nat>)

  const START := World(State(map[], {}), map[], map[])

  /** A handler disconnects exactly once, and only if its connect succeeded. */
  datatype Event = Arrives(socket: SocketId, user: UserId, redis: Outcome) | Ends(socket: SocketId, redis: Outcome)

  function FailedFor(w: World, u: UserId): nat { if u in w.failed then w.failed[u] else 0 }

  function Step(w: World, e: Event): World {
    match e
    case Arrives(socket, u, redis) =>
      if socket in w.live then w
      else
        var (presence, ok) := Connected(w.presence, u, redis);
        if ok then w.(presence := presence, live := w.live[socket := u])
        else w.(presence := presence, failed := w.failed[u := FailedFor(w, u) + 1])
    case Ends(socket, redis) =>
      if socket !in w.live then w
      else World(Disconnected(w.presence, w.live[socket], redis).0, w.live - {socket}, w.failed)
  }

  function Run(w: World, events: seq<Event>): World
    decreases |events|
  {
    if events == [] then w else Run(Step(w, events[0]), events[1..])
  }

  ghost function SocketsOf(live: map<SocketId, UserId>, u: UserId): set<SocketId> {
    set socket | socket in live && live[socket] == u
  }

  ghost function LiveOf(w: World, u: UserId): set<SocketId> { SocketsOf(w.live, u) }

  ghost predicate Inv(w: World) {
    && (forall u :: Count(w.presence, u) == |LiveOf(w, u)| + FailedFor(w, u))
    && (forall u <- w.presence.counts :: w.presence.counts[u] > 0)
  }

  lemma LiveAfterArrival(live: map<SocketId, UserId>, socket: SocketId, user: UserId, u: UserId)
    requires socket !in live
    ensures SocketsOf(live[socket := user], u) == SocketsOf(live, u) + if user == u then {socket} else {}
  {}

  lemma LiveAfterEnd(live: map<SocketId, UserId>, socket: SocketId, u: UserId)
    requires socket in live
    ensures SocketsOf(live - {socket}, u) == SocketsOf(live, u) - {socket}
    ensures live[socket] == u <==> socket in SocketsOf(live, u)
  {}

  lemma StepLive(w: World, e: Event)
    ensures var live := Step(w, e).live;
      match e
      case Arrives(socket, user, _) => live == w.live || (socket !in w.live && live == w.live[socket := user])
      case Ends(socket, _) => live == w.live - {socket}
  {
    if e.Ends? && e.socket !in w.live { assert w.live - {e.socket} == w.live; }
  }

  lemma LiveAfterStep(w: World, e: Event, u: UserId)
    ensures var t := Step(w, e);
      && (e.Arrives? && t.live != w.live && u == e.user ==> |LiveOf(t, u)| == |LiveOf(w, u)| + 1)
      && (e.Ends? && e.socket in w.live && u == w.live[e.socket] ==> |LiveOf(t, u)| == |LiveOf(w, u)| - 1)
      && (t.live == w.live || (e.Arrives? && u != e.user) || (e.Ends? && u != w.live[e.socket]) ==>
            LiveOf(t, u) == LiveOf(w, u))
  {
    var t := Step(w, e);
    StepLive(w, e);
    match e
    case Arrives(socket, user, _) => if socket !in w.live { LiveAfterArrival(w.live, socket, user, u); }
    case Ends(socket, _) => if socket in w.live { LiveAfterEnd(w.live, socket, u); }
  }

  lemma StepKeepsInv(w: World, e: Event)
    requires Inv(w)
    ensures Inv(Step(w, e))
  {
    var t := Step(w, e);
    forall u ensures Count(t.presence, u) == |LiveOf(t, u)| + FailedFor(t, u) {
      LiveAfterStep(w, e, u);
      if e.Ends? && e.socket in w.live { assert e.socket in LiveOf(w, w.live[e.socket]); }
      if e.Arrives? && e.socket !in w.live && u == e.user { assert t.live == w.live || t.failed == w.failed; }
    }
  }

  lemma {:induction false} RunKeepsInv(w: World, events: seq<Event>)
    requires Inv(w)
    ensures Inv(Run(w, events))
    decreases |events|
  {
    if events != [] {
      StepKeepsInv(w, events[0]);
      RunKeepsInv(Step(w, events[0]), events[1..]);
    }
  }

  lemma StartOk()
    ensures Inv(START)
  {
    forall u ensures LiveOf(START, u) == {} {}
  }

  /**
   In every run, whatever Redis does, a user's count is the number of the user's live sockets and of
   failed connection attempts together, and no count of zero is kept.
   */
  lemma CountIsLivePlusFailed(events: seq<Event>, u: UserId)
    ensures var w := Run(START, events);
      && Count(w.presence, u) == |LiveOf(w, u)| + FailedFor(w, u)
      && (u in w.presence.counts ==> w.presence.counts[u] > 0)
  {
    StartOk();
    RunKeepsInv(START, events);
  }

  // ---------------------------------------------------------------- when a user's status is right

  ghost predicate StatusRight(w: World, u: UserId) {
    u in w.presence.online <==> LiveOf(w, u) != {}
  }

  /**
   The events that spoil the status of `u`: the first of the user's sockets arrives while an earlier
   failure is still counted, or Redis and its answer disagree; or the last one ends while such a failure
   is counted, or its removal is lost.
   */
  ghost predicate Harmful(w: World, e: Event, u: UserId) {
    match e
    case Arrives(socket, user, redis) =>
      && socket !in w.live && user == u && LiveOf(w, u) == {}
      && (FailedFor(w, u) > 0 || redis.applied != redis.answered)
    case Ends(socket, redis) =>
      && LiveOf(w, u) == {socket}
      && (FailedFor(w, u) > 0 || !redis.applied)
  }

  lemma StepKeepsStatusExactly(w: World, e: Event, u: UserId)
    requires Inv(w) && StatusRight(w, u)
    ensures StatusRight(Step(w, e), u) <==> !Harmful(w, e, u)
  {
    LiveAfterStep(w, e, u);
    match e
    case Arrives(socket, _, _) =>
    case Ends(socket, _) =>
      if socket in w.live && w.live[socket] == u {
        assert socket in LiveOf(w, u);
        assert LiveOf(Step(w, e), u) == LiveOf(w, u) - {socket};
        if |LiveOf(w, u)| == 1 { assert LiveOf(w, u) - {socket} == {}; }
      } else {
        assert socket !in LiveOf(w, u);
      }
  }

  /** The state after the first `n` events. */
  function At(w: World, events: seq<Event>, n: nat): World requires n <= |events| { Run(w, events[..n]) }

  lemma AtRest(w: World, events: seq<Event>)
    requires events != []
    ensures forall n: nat | n < |events| :: At(w, events, n + 1) == At(Step(w, events[0]), events[1..], n)
    ensures At(w, events, 0) == w
  {
    forall n: nat | n < |events| ensures At(w, events, n + 1) == At(Step(w, events[0]), events[1..], n) {
      assert events[..n + 1][1..] == events[1..][..n];
    }
  }

  /** Over a whole run: a user's status is right at every moment if and only if no event is harmful. */
  lemma {:induction false} StatusRightExactly(w: World, events: seq<Event>, u: UserId)
    requires Inv(w) && StatusRight(w, u)
    ensures (forall n: nat | n <= |events| :: StatusRight(At(w, events, n), u)) <==>
            (forall n: nat | n < |events| :: !Harmful(At(w, events, n), events[n], u))
    decreases |events|
  {
    if events != [] {
      var next, rest := Step(w, events[0]), events[1..];
      AtRest(w, events);
      StepKeepsStatusExactly(w, events[0], u);
      assert At(w, events, 1) == At(next, rest, 0) == next;
      StepKeepsInv(w, events[0]);
      if StatusRight(next, u) {
        StatusRightExactly(next, rest, u);
        assert forall n: nat | n < |rest| :: rest[n] == events[n + 1];
        assert forall n: nat | 0 < n <= |events| :: At(w, events, n) == At(next, rest, n - 1);
      } else {
        assert !StatusRight(At(w, events, 1), u) && Harmful(At(w, events, 0), events[0], u);
      }
    }
  }

  /** Event `n` is about a socket of `u`. */
  predicate Concerns(w: World, events: seq<Event>, n: nat, u: UserId) requires n < |events| {
    match events[n]
    case Arrives(_, user, _) => user == u
    case Ends(socket, _) => var live := At(w, events, n).live; socket in live && live[socket] == u
  }

  lemma {:induction false} RunSnoc(w: World, events: seq<Event>, e: Event)
    ensures Run(w, events + [e]) == Step(Run(w, events), e)
    decreases |events|
  {
    if events == [] {
      assert [e][1..] == [] && [] + [e] == [e];
      assert Run(w, [e]) == Run(Step(w, e), []);
    } else {
      assert (events + [e])[1..] == events[1..] + [e];
      RunSnoc(Step(w, events[0]), events[1..], e);
    }
  }

  lemma {:induction false} NoFailureSoFar(events: seq<Event>, u: UserId, n: nat)
    requires n <= |events|
    requires forall k: nat | k < n && Concerns(START, events, k, u) :: events[k].redis == FINE
    ensures FailedFor(At(START, events, n), u) == 0
  {
    if n > 0 {
      NoFailureSoFar(events, u, n - 1);
      RunSnoc(START, events[..n - 1], events[n - 1]);
      assert events[..n] == events[..n - 1] + [events[n - 1]];
    }
  }

  /**
   As long as Redis works for what concerns one user, that user is online exactly while a socket of
   theirs is live. What fails for others does no harm.
   */
  lemma OnlineIsLive(events: seq<Event>, u: UserId)
    requires forall n: nat | n < |events| && Concerns(START, events, n, u) :: events[n].redis == FINE
    ensures var w := Run(START, events); u in w.presence.online <==> exists socket <- w.live :: w.live[socket] == u
  {
    StartOk();
    assert StatusRight(START, u) by { assert LiveOf(START, u) == {}; }
    forall n: nat | n < |events| ensures !Harmful(At(START, events, n), events[n], u) {
      NoFailureSoFar(events, u, n);
      if events[n].Ends? && LiveOf(At(START, events, n), u) == {events[n].socket} {
        assert events[n].socket in LiveOf(At(START, events, n), u);
      }
    }
    StatusRightExactly(START, events, u);
    var w := Run(START, events);
    assert At(START, events, |events|) == w by { assert events[..|events|] == events; }
    assert (exists socket <- w.live :: w.live[socket] == u) <==> LiveOf(w, u) != {} by {
      if socket :| socket in w.live && w.live[socket] == u { assert socket in LiveOf(w, u); }
      if socket :| socket in LiveOf(w, u) { assert socket in w.live && w.live[socket] == u; }
    }
  }

  /**
   What one failed attempt costs: the user's count never returns to zero, so nothing the user does
   later, with Redis working or not, is announced. The user stays on or off line for ever.
   */
  lemma {:induction false} FailedConnectFreezesPresence(w: World, events: seq<Event>, u: UserId)
    requires Inv(w) && FailedFor(w, u) > 0
    ensures u in Run(w, events).presence.online <==> u in w.presence.online
    decreases |events|
  {
    if events != [] {
      var e := events[0];
      if e.Ends? && e.socket in w.live && w.live[e.socket] == u {
        assert e.socket in LiveOf(w, u);
        assert |LiveOf(w, u)| >= 1;
      }
      StepKeepsInv(w, e);
      FailedConnectFreezesPresence(Step(w, e), events[1..], u);
    }
  }

  /**
   "Online exactly with a live socket" is false: a first attempt whose SADD fails leaves a count behind,
   the second succeeds without announcing anything, and from then on, whatever happens and however well
   Redis works, the user is never shown online.
   */
  lemma FailedConnectHidesUser(u: UserId, more: seq<Event>)
    ensures var w := Run(START, [Arrives(0, u, Outcome(false, false)), Arrives(1, u, FINE)]);
      1 in w.live && w.live[1] == u && u !in w.presence.online && u !in Run(w, more).presence.online
  {
    var first, second := Arrives(0, u, Outcome(false, false)), Arrives(1, u, FINE);
    var w := Run(START, [first, second]);
    RunSnoc(START, [], first);
    RunSnoc(START, [first], second);
    assert [] + [first] == [first] && [first] + [second] == [first, second];
    StartOk();
    RunKeepsInv(START, [first, second]);
    FailedConnectFreezesPresence(w, more, u);
  }
}
