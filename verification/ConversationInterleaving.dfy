/**
 The same service calls at the fine grain: each repository read or write is a step of its own, and
 any number of calls may be under way at once. What survives every interleaving, what needs calls on
 one conversation not to overlap, and what an overlap can break.
 */
module ConversationInterleaving {
  import opened Common
  import opened ConversationStore
  import opened ConversationRules
  import Text

  type CallId = nat

  /** The next repository operation of a call that has passed every check before it. */
  datatype Stage = KindStage | ActorStage | TargetStage(actorRole: Role) | MemberStage | DirectStage | WriteStage

  datatype Outcome = Continue(stage: Stage) | Finish(store: Store, reply: Reply)

  function FirstStage(call: Call): Stage {
    if call.ChecksKind() then KindStage
    else if call.ChecksActor() then ActorStage
    else if call.MarkRead? then MemberStage
    else if call.CreateDirect? then DirectStage
    else WriteStage
  }

  predicate StageFits(call: Call, stage: Stage) {
    match stage
    case KindStage => call.ChecksKind()
    case ActorStage => call.ChecksActor()
    case TargetStage(_) => call.ChecksTarget()
    case MemberStage => call.MarkRead?
    case DirectStage => call.CreateDirect?
    case WriteStage => true
  }

  function After(s: Store, check: Option<Error>, next: Stage): Outcome {
    match check
    case Some(error) => Finish(s, Failed(error))
    case None => Continue(next)
  }

  /** One repository operation and the check on what it returned. */
  ghost function Advance(s: Store, call: Call, stage: Stage): Outcome
    requires StageFits(call, stage)
  {
    match stage
    case KindStage => After(s, CheckKind(s, call.conv), ActorStage)
    case ActorStage =>
      var row := FindParticipant(s, call.conv, call.actor);
      After(s, CheckActor(s, call),
            if call.ChecksTarget() && row.Some? then TargetStage(row.value.role) else WriteStage)
    case TargetStage(actorRole) => After(s, CheckTarget(s, call, actorRole), WriteStage)
    case MemberStage => After(s, CheckMember(s, call), WriteStage)
    case DirectStage =>
      (match FindDirect(s, call.actor, call.other)
       case Some(k) => Finish(s, ConversationReply(k, if k in s.conversations then s.conversations[k].name else None))
       case None => Continue(WriteStage))
    case WriteStage => var (t, reply) := Write(s, call); Finish(t, reply)
  }

  // ---------------------------------------------------------------- the two grains agree

  /** Everything `call` read before `stage` would read the same from `s`. */
  ghost predicate Reached(s: Store, call: Call, stage: Stage) {
    && StageFits(call, stage)
    && Validate(call) == None
    && match stage
       case KindStage => true
       case ActorStage => call.ChecksKind() ==> CheckKind(s, call.conv) == None
       case TargetStage(actorRole) =>
         && (call.ChecksKind() ==> CheckKind(s, call.conv) == None)
         && CheckActor(s, call) == None
         && actorRole == FindParticipant(s, call.conv, call.actor).value.role
       case MemberStage => true
       case DirectStage => true
       case WriteStage => Checks(s, call) == None && ExistingDirect(s, call) == None
  }

  lemma AdvanceFollowsApply(s: Store, call: Call, stage: Stage)
    requires Reached(s, call, stage)
    ensures match Advance(s, call, stage)
            case Continue(next) => Reached(s, call, next)
            case Finish(t, reply) => (t, reply) == Apply(s, call)
  {}

  function Rank(stage: Stage): nat {
    match stage
    case KindStage => 4
    case ActorStage => 3
    case TargetStage(_) => 2
    case MemberStage => 2
    case DirectStage => 2
    case WriteStage => 1
  }

  /** A call's steps, one after the other, with nothing in between. */
  ghost function RunAlone(s: Store, call: Call, stage: Stage): (Store, Reply)
    requires StageFits(call, stage)
    decreases Rank(stage)
  {
    match Advance(s, call, stage)
    case Continue(next) => RunAlone(s, call, next)
    case Finish(t, reply) => (t, reply)
  }

  /** The coarse grain is the fine grain without interruptions. */
  lemma {:induction false} UninterruptedIsAtomic(s: Store, call: Call, stage: Stage)
    requires Reached(s, call, stage)
    ensures RunAlone(s, call, stage) == Apply(s, call)
    decreases Rank(stage)
  {
    AdvanceFollowsApply(s, call, stage);
    match Advance(s, call, stage)
    case Continue(next) => UninterruptedIsAtomic(s, call, next);
    case Finish(_, _) =>
  }

  // ---------------------------------------------------------------- the interleaved machine

  datatype Pending = Pending(call: Call, stage: Stage)

  datatype Finished = Finished(attempt: Attempt, reply: Reply)

  datatype World = World(store: Store, pending: map<CallId, Pending>, done: seq<Finished>)

  /** A call arrives, takes its next step, or is cut short by a failing repository. */
  datatype Event = Begin(id: CallId, call: Call) | Step(id: CallId) | Fault(id: CallId)

  ghost function Exec(w: World, e: Event): World {
    match e
    case Begin(id, call) =>
      if id in w.pending then w
      else if Validate(call).Some? then
        w.(done := w.done + [Finished(Attempt(call, false), Failed(Validate(call).value))])
      else w.(pending := w.pending[id := Pending(call, FirstStage(call))])
    case Step(id) =>
      if id !in w.pending || !StageFits(w.pending[id].call, w.pending[id].stage) then w
      else
        var p := w.pending[id];
        (match Advance(w.store, p.call, p.stage)
         case Continue(next) => w.(pending := w.pending[id := Pending(p.call, next)])
         case Finish(store, reply) =>
           World(store, w.pending - {id}, w.done + [Finished(Attempt(p.call, false), reply)]))
    case Fault(id) =>
      if id !in w.pending then w
      else w.(pending := w.pending - {id},
              done := w.done + [Finished(Attempt(w.pending[id].call, true), Failed(Unavailable))])
  }

  ghost function ExecAll(w: World, events: seq<Event>): World {
    if events == [] then w else Exec(ExecAll(w, events[..|events| - 1]), events[|events| - 1])
  }

  // ---------------------------------------------------------------- direct chats never change

  /** A pending call that got past a check which only a room passes is aimed at a room. */
  ghost predicate PendingOk(s: Store, p: Pending) {
    && StageFits(p.call, p.stage)
    && Validate(p.call) == None
    && (p.call.ChecksActor() && !p.stage.KindStage? && !(p.stage.ActorStage? && !p.call.ChecksKind()) ==>
          RoomId(s, p.call.conv))
  }

  ghost predicate WorldOk(w: World) {
    Sound(w.store) && forall id <- w.pending :: PendingOk(w.store, w.pending[id])
  }

  lemma AdvanceKeepsPendingOk(s: Store, p: Pending)
    requires Sound(s) && PendingOk(s, p)
    ensures match Advance(s, p.call, p.stage)
            case Continue(next) => PendingOk(s, Pending(p.call, next))
            case Finish(t, _) => Sound(t) && DirectsKept(s, t)
  {
    match p.stage
    case ActorStage =>
      if CheckActor(s, p.call) == None && !p.call.ChecksKind() { PassedActorCheckMeansRoom(s, p.call); }
    case WriteStage => WriteKeepsDirects(s, p.call);
    case _ =>
  }

  lemma ExecKeepsDirects(w: World, e: Event)
    requires WorldOk(w)
    ensures WorldOk(Exec(w, e)) && DirectsKept(w.store, Exec(w, e).store)
  {
    var v := Exec(w, e);
    if e.Step? && e.id in w.pending {
      var p := w.pending[e.id];
      AdvanceKeepsPendingOk(w.store, p);
      forall id <- v.pending ensures PendingOk(v.store, v.pending[id]) {
        assert id != e.id ==> PendingOk(w.store, w.pending[id]);
      }
    }
  }

  lemma {:induction false} ExecAllKeepsDirects(w: World, events: seq<Event>)
    requires WorldOk(w)
    ensures WorldOk(ExecAll(w, events)) && DirectsKept(w.store, ExecAll(w, events).store)
  {
    if events != [] {
      var n := |events| - 1;
      ExecAllKeepsDirects(w, events[..n]);
      ExecKeepsDirects(ExecAll(w, events[..n]), events[n]);
    }
  }

  /**
   Direct chats are fixed under every interleaving, stale writes included: from an empty database, a
   direct chat has two members with the plain role and no name, and whatever happens next it is still
   there, with the same two members, the same roles and no name.
   */
  lemma DirectChatsAreFixed(before: seq<Event>, after: seq<Event>, k: ConvId)
    requires var s := ExecAll(World(EMPTY, map[], []), before).store;
      k in s.conversations && s.conversations[k].kind == Direct
    ensures var w := ExecAll(World(EMPTY, map[], []), before);
      var s, t := w.store, ExecAll(w, after).store;
      && k in t.conversations
      && exists a, b :: DirectOf(s.conversations[k], a, b) && DirectOf(t.conversations[k], a, b)
  {
    var start := World(EMPTY, map[], []);
    var w := ExecAll(start, before);
    ExecAllKeepsDirects(start, before);
    ExecAllKeepsDirects(w, after);
    var s, t := w.store, ExecAll(w, after).store;
    assert SameShape(s.conversations[k], t.conversations[k]);
    var a: UserId, b: UserId :| DirectOf(s.conversations[k], a, b);
    SameShapeKeepsDirect(s.conversations[k], t.conversations[k]);
  }

  // ---------------------------------------------------------------- every call is answered

  /** How often the call `id` takes a step or is cut short. */
  function CallTurns(events: seq<Event>, id: CallId): nat {
    if events == [] then 0
    else
      var n := |events| - 1;
      CallTurns(events[..n], id) + if events[n] == Step(id) || events[n] == Fault(id) then 1 else 0
  }

  /** Since `w`, a call `call` has been answered. */
  ghost predicate AnsweredSince(w: World, v: World, call: Call) {
    exists i :: |w.done| <= i < |v.done| && v.done[i].attempt.call == call
  }

  /** Answered, or still under way with no more than `turns` turns to go. */
  ghost predicate OnItsWay(w: World, v: World, id: CallId, call: Call, turns: int) {
    || AnsweredSince(w, v, call)
    || (id in v.pending && v.pending[id].call == call && Rank(v.pending[id].stage) <= turns)
  }

  lemma ExecKeepsDone(w: World, e: Event)
    ensures w.done <= Exec(w, e).done
  {}

  lemma AdvanceRanksDown(s: Store, call: Call, stage: Stage)
    requires StageFits(call, stage)
    ensures var o := Advance(s, call, stage); o.Continue? ==> Rank(o.stage) < Rank(stage)
  {}

  lemma ExecKeepsOnItsWay(w: World, v: World, e: Event, id: CallId, call: Call, turns: int)
    requires WorldOk(v) && |w.done| <= |v.done| && OnItsWay(w, v, id, call, turns)
    ensures OnItsWay(w, Exec(v, e), id, call, if e == Step(id) || e == Fault(id) then turns - 1 else turns)
  {
    var u := Exec(v, e);
    ExecKeepsDone(v, e);
    if AnsweredSince(w, v, call) {
      var i :| |w.done| <= i < |v.done| && v.done[i].attempt.call == call;
      assert u.done[i].attempt.call == call;
    } else if e == Step(id) {
      assert PendingOk(v.store, v.pending[id]);
      AdvanceRanksDown(v.store, call, v.pending[id].stage);
      if |u.done| > |v.done| { assert u.done[|v.done|].attempt.call == call; }
    } else if e == Fault(id) {
      assert u.done[|v.done|].attempt.call == call;
    }
  }

  lemma {:induction false} ExecAllKeepsOnItsWay(w: World, v: World, events: seq<Event>, id: CallId, call: Call,
                                                turns: int)
    requires WorldOk(v) && |w.done| <= |v.done| && OnItsWay(w, v, id, call, turns)
    ensures |w.done| <= |ExecAll(v, events).done|
    ensures OnItsWay(w, ExecAll(v, events), id, call, turns - CallTurns(events, id))
  {
    if events != [] {
      var n := |events| - 1;
      ExecAllKeepsOnItsWay(w, v, events[..n], id, call, turns);
      ExecAllKeepsDirects(v, events[..n]);
      ExecKeepsDone(ExecAll(v, events[..n]), events[n]);
      ExecKeepsOnItsWay(w, ExecAll(v, events[..n]), events[n], id, call, turns - CallTurns(events[..n], id));
    }
  }

  /** Every call that begins is answered by its fourth turn, whatever other calls do in between. */
  lemma CallsAreAnswered(w: World, id: CallId, call: Call, events: seq<Event>)
    requires WorldOk(w) && id !in w.pending && CallTurns(events, id) >= 4
    ensures AnsweredSince(w, ExecAll(Exec(w, Begin(id, call)), events), call)
  {
    var v := Exec(w, Begin(id, call));
    ExecKeepsDirects(w, Begin(id, call));
    if Validate(call).Some? { assert v.done[|w.done|].attempt.call == call; }
    assert OnItsWay(w, v, id, call, 4);
    ExecAllKeepsOnItsWay(w, v, events, id, call, 4);
  }

  // ---------------------------------------------------------------- which runs keep the rules

  /** The state before event `n`. */
  ghost function At(w: World, events: seq<Event>, n: nat): World requires n <= |events| { ExecAll(w, events[..n]) }

  /** Event `n` is a repository write. */
  ghost predicate WritesAt(w: World, events: seq<Event>, n: nat) requires n < |events| {
    var pending := At(w, events, n).pending;
    events[n].Step? && events[n].id in pending && pending[events[n].id].stage.WriteStage?
  }

  /** If event `n` is a write, it still finds its condition on owners true. */
  ghost predicate SafeAt(w: World, events: seq<Event>, n: nat) requires n < |events| {
    var v := At(w, events, n);
    WritesAt(w, events, n) ==> StillSafe(v.store, v.pending[events[n].id].call)
  }

  /** If event `n` is a write, it does not open a second direct chat for a pair. */
  ghost predicate NewAt(w: World, events: seq<Event>, n: nat) requires n < |events| {
    var v := At(w, events, n);
    WritesAt(w, events, n) ==> StillNew(v.store, v.pending[events[n].id].call)
  }

  lemma NextState(w: World, events: seq<Event>, n: nat)
    requires n < |events|
    ensures At(w, events, n + 1) == Exec(At(w, events, n), events[n])
  {
    assert events[..n + 1][..n] == events[..n];
  }

  lemma ExecKeepsRulesExactly(w: World, events: seq<Event>, n: nat)
    requires n < |events| && WorldOk(w)
    ensures var s, t := At(w, events, n).store, At(w, events, n + 1).store;
      && (RoomsOwned(s) ==> (RoomsOwned(t) <==> SafeAt(w, events, n)))
      && (DirectsUnique(s) ==> (DirectsUnique(t) <==> NewAt(w, events, n)))
  {
    var v := At(w, events, n);
    ExecAllKeepsDirects(w, events[..n]);
    NextState(w, events, n);
    if WritesAt(w, events, n) {
      var p := v.pending[events[n].id];
      assert PendingOk(v.store, p);
      if RoomsOwned(v.store) { WriteKeepsRoomsOwnedExactly(v.store, p.call); }
      if DirectsUnique(v.store) { WriteKeepsDirectsUniqueExactly(v.store, p.call); }
    }
  }

  /**
   Exactly which interleaved runs keep one owner per room: in every state of the run's first `m` events
   each room has one owner if and only if every write among them, when it ran, still found its
   condition true.
   */
  lemma {:induction false} RunKeepsOneOwnerExactly(w: World, events: seq<Event>, m: nat)
    requires m <= |events| && WorldOk(w) && RoomsOwned(w.store)
    ensures (forall n: nat | n <= m :: RoomsOwned(At(w, events, n).store)) <==>
            (forall n: nat | n < m :: SafeAt(w, events, n))
  {
    if m == 0 {
      assert events[..0] == [];
    } else {
      RunKeepsOneOwnerExactly(w, events, m - 1);
      ExecKeepsRulesExactly(w, events, m - 1);
    }
  }

  /** And exactly which keep at most one direct chat for every pair of users. */
  lemma {:induction false} RunKeepsOneChatExactly(w: World, events: seq<Event>, m: nat)
    requires m <= |events| && WorldOk(w) && DirectsUnique(w.store)
    ensures (forall n: nat | n <= m :: DirectsUnique(At(w, events, n).store)) <==>
            (forall n: nat | n < m :: NewAt(w, events, n))
  {
    if m == 0 {
      assert events[..0] == [];
    } else {
      RunKeepsOneChatExactly(w, events, m - 1);
      ExecKeepsRulesExactly(w, events, m - 1);
    }
  }

  // ---------------------------------------------------------------- room names

  lemma {:induction false} ExecAllKeepsRoomsNamed(w: World, events: seq<Event>)
    requires WorldOk(w) && RoomsNamed(w.store)
    ensures RoomsNamed(ExecAll(w, events).store)
  {
    if events != [] {
      var n := |events| - 1;
      var v := ExecAll(w, events[..n]);
      ExecAllKeepsRoomsNamed(w, events[..n]);
      ExecAllKeepsDirects(w, events[..n]);
      if events[n].Step? && events[n].id in v.pending {
        assert PendingOk(v.store, v.pending[events[n].id]);
        WriteKeepsRoomsNamed(v.store, v.pending[events[n].id].call);
      }
    }
  }

  /** From an empty database, under any overlap, a room has a trimmed name of 3 to 80 bytes. */
  lemma RoomNamesAreProper(events: seq<Event>, k: ConvId)
    requires var s := ExecAll(World(EMPTY, map[], []), events).store;
      k in s.conversations && s.conversations[k].kind == Room
    ensures var c := ExecAll(World(EMPTY, map[], []), events).store.conversations[k];
      && c.name.Some? && c.name.value == Text.TrimSpace(c.name.value)
      && 3 <= Text.Utf8Length(c.name.value) <= 80
  {
    ExecAllKeepsRoomsNamed(World(EMPTY, map[], []), events);
  }

  // ---------------------------------------------------------------- serialisability

  /** Two calls that must not overlap: both on one conversation, or both opening one pair's direct chat. */
  predicate Conflict(p: Call, q: Call) {
    || (p.OnConversation() && q.OnConversation() && p.conv == q.conv)
    || (p.CreateDirect? && q.CreateDirect? && {p.actor, p.other} == {q.actor, q.other})
  }

  ghost predicate NoOverlap(w: World) {
    forall i <- w.pending, j <- w.pending :: i != j ==> !Conflict(w.pending[i].call, w.pending[j].call)
  }

  ghost predicate NeverOverlaps(w: World, events: seq<Event>) {
    forall n :: 0 <= n <= |events| ==> NoOverlap(ExecAll(w, events[..n]))
  }

  /** `done` is what its attempts, one after the other from `s`, answer, and `t` is where they end. */
  ghost predicate Replays(s: Store, done: seq<Finished>, t: Store) {
    if done == [] then s == t
    else
      var n := |done| - 1;
      exists mid :: Replays(s, done[..n], mid) && Try(mid, done[n].attempt) == (t, done[n].reply)
  }

  lemma ReplaysSnoc(s: Store, done: seq<Finished>, mid: Store, f: Finished, t: Store)
    requires Replays(s, done, mid) && Try(mid, f.attempt) == (t, f.reply)
    ensures Replays(s, done + [f], t)
  {
    assert (done + [f])[..|done|] == done;
  }

  ghost predicate AllReached(w: World) {
    forall id <- w.pending :: Reached(w.store, w.pending[id].call, w.pending[id].stage)
  }

  /** A call that does not conflict with a finished one still reads what it read before. */
  lemma OthersStayReached(s: Store, call: Call, q: Pending)
    requires Sound(s) && Validate(call) == None && (call.ChecksActor() ==> RoomId(s, call.conv))
    requires Reached(s, q.call, q.stage) && !Conflict(call, q.call)
    ensures Reached(Write(s, call).0, q.call, q.stage)
  {
    var t := Write(s, call).0;
    if q.call.OnConversation() && q.call.conv in s.conversations {
      WriteIsLocal(s, call, q.call.conv);
    }
    if q.call.CreateDirect? && q.stage.WriteStage? {
      var a, b := q.call.actor, q.call.other;
      FindDirectNone(s, a, b);
      FindDirectNone(t, a, b);
      forall k ensures !IsDirectBetween(t, k, a, b) {
        if IsDirectBetween(t, k, a, b) { DirectBetweenAfter(s, call, k, a, b); }
      }
    }
  }

  lemma ExecSerialises(s: Store, w: World, e: Event)
    requires WorldOk(w) && AllReached(w) && NoOverlap(w) && Replays(s, w.done, w.store)
    ensures AllReached(Exec(w, e)) && Replays(s, Exec(w, e).done, Exec(w, e).store)
  {
    var v := Exec(w, e);
    if |v.done| > |w.done| {
      var f := v.done[|w.done|];
      if e.Step? {
        var p := w.pending[e.id];
        AdvanceFollowsApply(w.store, p.call, p.stage);
        assert PendingOk(w.store, p);
        forall id <- v.pending ensures Reached(v.store, v.pending[id].call, v.pending[id].stage) {
          assert id != e.id && Reached(w.store, w.pending[id].call, w.pending[id].stage);
          if p.stage.WriteStage? { OthersStayReached(w.store, p.call, w.pending[id]); }
        }
      }
      ReplaysSnoc(s, w.done, w.store, f, v.store);
    } else if e.Step? && e.id in w.pending {
      AdvanceFollowsApply(w.store, w.pending[e.id].call, w.pending[e.id].stage);
    }
  }

  /**
   Serialisability: in an interleaved run in which no two calls on one conversation, and no two that
   open the same direct chat, are ever under way together, the store and every reply are those of the
   same calls made whole, one at a time, in the order of their last steps.
   */
  lemma {:induction false} NonOverlappingRunsSerialise(s: Store, events: seq<Event>)
    requires Sound(s) && NeverOverlaps(World(s, map[], []), events)
    ensures var w := ExecAll(World(s, map[], []), events);
      Replays(s, w.done, w.store) && WorldOk(w) && AllReached(w)
  {
    var start := World(s, map[], []);
    if events != [] {
      var n := |events| - 1;
      assert forall m | 0 <= m <= n :: events[..n][..m] == events[..m];
      NonOverlappingRunsSerialise(s, events[..n]);
      assert NoOverlap(ExecAll(start, events[..n]));
      ExecSerialises(s, ExecAll(start, events[..n]), events[n]);
      ExecKeepsDirects(ExecAll(start, events[..n]), events[n]);
    }
  }

  ghost function Attempts(done: seq<Finished>): seq<Attempt> {
    if done == [] then [] else Attempts(done[..|done| - 1]) + [done[|done| - 1].attempt]
  }

  lemma {:induction false} ReplaysIsRun(s: Store, done: seq<Finished>, t: Store)
    requires Replays(s, done, t)
    ensures t == Run(s, Attempts(done))
  {
    if done != [] {
      var n := |done| - 1;
      var mid :| Replays(s, done[..n], mid) && Try(mid, done[n].attempt) == (t, done[n].reply);
      ReplaysIsRun(s, done[..n], mid);
      assert Attempts(done)[..|Attempts(done)| - 1] == Attempts(done[..n]);
    }
  }

  /**
   So calls that never overlap on a room, or on opening one direct chat, keep every room's one owner and
   every pair's one chat, even when calls elsewhere interleave.
   */
  lemma NonOverlappingRunsKeepOneOwner(s: Store, events: seq<Event>)
    requires Good(s) && NeverOverlaps(World(s, map[], []), events)
    ensures var t := ExecAll(World(s, map[], []), events).store; RoomsOwned(t) && DirectsUnique(t)
  {
    var w := ExecAll(World(s, map[], []), events);
    NonOverlappingRunsSerialise(s, events);
    ReplaysIsRun(s, w.done, w.store);
    RunKeepsGood(s, Attempts(w.done));
  }

  // ---------------------------------------------------------------- steps on different conversations

  ghost function StoreAfter(s: Store, call: Call, stage: Stage): Store requires StageFits(call, stage) {
    var outcome := Advance(s, call, stage);
    if outcome.Finish? then outcome.store else s
  }

  ghost predicate SameOutcome(o: Outcome, p: Outcome) {
    match (o, p)
    case (Continue(x), Continue(y)) => x == y
    case (Finish(_, x), Finish(_, y)) => x == y
    case _ => false
  }

  /** `t` is `s` but for the conversation `k`. */
  ghost predicate DiffersAt(s: Store, t: Store, k: ConvId) {
    && t == s.(conversations := t.conversations)
    && forall j | j != k ::
         && (j in t.conversations <==> j in s.conversations)
         && (j in s.conversations ==> t.conversations[j] == s.conversations[j])
  }

  /** `s` and `t` have the same users and the same conversation `k`, or neither has it. */
  ghost predicate AgreesAt(s: Store, t: Store, k: ConvId) {
    && s.users == t.users && (k in s.conversations <==> k in t.conversations)
    && (k in s.conversations ==> s.conversations[k] == t.conversations[k])
  }

  lemma StepWritesHere(s: Store, call: Call, stage: Stage)
    requires StageFits(call, stage) && call.OnConversation()
    ensures DiffersAt(s, StoreAfter(s, call, stage), call.conv)
  {}

  lemma WriteReadsHere(s: Store, call: Call, t: Store)
    requires call.OnConversation() && AgreesAt(s, t, call.conv)
    ensures Write(s, call).1 == Write(t, call).1 && AgreesAt(Write(s, call).0, Write(t, call).0, call.conv)
  {}

  lemma ChecksReadHere(s: Store, call: Call, stage: Stage, t: Store)
    requires StageFits(call, stage) && call.OnConversation() && !stage.WriteStage? && AgreesAt(s, t, call.conv)
    ensures SameOutcome(Advance(s, call, stage), Advance(t, call, stage))
    ensures StoreAfter(s, call, stage) == s && StoreAfter(t, call, stage) == t
  {}

  /** A step reads its own conversation and the users, and writes its own conversation. */
  lemma StepIsLocal(s: Store, call: Call, stage: Stage, t: Store)
    requires StageFits(call, stage) && call.OnConversation() && AgreesAt(s, t, call.conv)
    ensures SameOutcome(Advance(s, call, stage), Advance(t, call, stage))
    ensures var s', t' := StoreAfter(s, call, stage), StoreAfter(t, call, stage);
      AgreesAt(s', t', call.conv) && DiffersAt(s, s', call.conv) && DiffersAt(t, t', call.conv)
  {
    StepWritesHere(s, call, stage);
    StepWritesHere(t, call, stage);
    if stage.WriteStage? {
      WriteReadsHere(s, call, t);
    } else {
      ChecksReadHere(s, call, stage, t);
    }
  }

  /** Steps of calls on different conversations commute: same store, and each sees and answers the same. */
  lemma StepsOnDifferentConversationsCommute(s: Store, p: Pending, q: Pending)
    requires StageFits(p.call, p.stage) && StageFits(q.call, q.stage)
    requires p.call.OnConversation() && q.call.OnConversation() && p.call.conv != q.call.conv
    ensures var afterP, afterQ := StoreAfter(s, p.call, p.stage), StoreAfter(s, q.call, q.stage);
      && StoreAfter(afterP, q.call, q.stage) == StoreAfter(afterQ, p.call, p.stage)
      && SameOutcome(Advance(s, p.call, p.stage), Advance(afterQ, p.call, p.stage))
      && SameOutcome(Advance(s, q.call, q.stage), Advance(afterP, q.call, q.stage))
  {
    var afterP, afterQ := StoreAfter(s, p.call, p.stage), StoreAfter(s, q.call, q.stage);
    StepIsLocal(s, p.call, p.stage, s);
    StepIsLocal(s, q.call, q.stage, s);
    StepIsLocal(s, p.call, p.stage, afterQ);
    StepIsLocal(s, q.call, q.stage, afterP);
    assert StoreAfter(afterP, q.call, q.stage).conversations == StoreAfter(afterQ, p.call, p.stage).conversations;
  }

  // ---------------------------------------------------------------- what an overlap can break

  /** Calls `p` and `q` arrive, and then take turns, one step each, for `rounds` rounds. */
  function InTurn(p: Call, q: Call, rounds: nat): seq<Event> {
    if rounds == 0 then [Begin(0, p), Begin(1, q)] else InTurn(p, q, rounds - 1) + [Step(0), Step(1)]
  }

  lemma ExecAllPair(w: World, events: seq<Event>, d: Event, e: Event)
    ensures ExecAll(w, events + [d, e]) == Exec(Exec(ExecAll(w, events), d), e)
  {
    var longer := events + [d, e];
    assert longer[..|longer| - 1] == events + [d] && (events + [d])[..|events|] == events;
  }

  ghost predicate Paused(w: World, s: Store, p: Call, q: Call, x: Stage, y: Stage) {
    w.store == s && w.pending == map[0 := Pending(p, x), 1 := Pending(q, y)]
  }

  lemma BothBegin(s: Store, p: Call, q: Call)
    requires Validate(p) == None && Validate(q) == None
    ensures Paused(ExecAll(World(s, map[], []), InTurn(p, q, 0)), s, p, q, FirstStage(p), FirstStage(q))
  {
    ExecAllPair(World(s, map[], []), [], Begin(0, p), Begin(1, q));
    assert [] + [Begin(0, p), Begin(1, q)] == InTurn(p, q, 0);
  }

  /** One more round in which both calls pass a check. */
  lemma BothContinue(start: World, rounds: nat, s: Store, p: Call, q: Call, x: Stage, y: Stage, x': Stage, y': Stage)
    requires Paused(ExecAll(start, InTurn(p, q, rounds)), s, p, q, x, y)
    requires StageFits(p, x) && StageFits(q, y)
    requires Advance(s, p, x) == Continue(x') && Advance(s, q, y) == Continue(y')
    ensures Paused(ExecAll(start, InTurn(p, q, rounds + 1)), s, p, q, x', y')
  {
    ExecAllPair(start, InTurn(p, q, rounds), Step(0), Step(1));
    var w := ExecAll(start, InTurn(p, q, rounds));
    assert w.pending[0 := Pending(p, x')][1 := Pending(q, y')] == map[0 := Pending(p, x'), 1 := Pending(q, y')];
  }

  lemma WriteStep(w: World, id: CallId)
    requires id in w.pending && w.pending[id].stage == WriteStage
    ensures Exec(w, Step(id)).store == Write(w.store, w.pending[id].call).0
    ensures Exec(w, Step(id)).pending == w.pending - {id}
  {}

  lemma BothWrite(start: World, rounds: nat, s: Store, p: Call, q: Call)
    requires Paused(ExecAll(start, InTurn(p, q, rounds)), s, p, q, WriteStage, WriteStage)
    ensures ExecAll(start, InTurn(p, q, rounds + 1)).store == Write(Write(s, p).0, q).0
  {
    var w := ExecAll(start, InTurn(p, q, rounds));
    ExecAllPair(start, InTurn(p, q, rounds), Step(0), Step(1));
    WriteStep(w, 0);
    WriteStep(Exec(w, Step(0)), 1);
  }

  lemma OwnerPassesTransferChecks(s: Store, k: ConvId, o: UserId, u: UserId)
    requires OwnedBy(s, k, o) && o != u && u in s.conversations[k].participants
    ensures var p := TransferOwnership(k, o, u);
      && Advance(s, p, KindStage) == Continue(ActorStage)
      && Advance(s, p, ActorStage) == Continue(TargetStage(Owner))
      && Advance(s, p, TargetStage(Owner)) == Continue(WriteStage)
  {
    var c := s.conversations[k];
    assert o in Owners(c) && u !in Owners(c);
  }

  /**
   At the fine grain one owner is not an invariant: whenever a room's owner has two transfers to
   different members under way at once, both can pass their checks before either writes, and the room
   is left with two owners.
   */
  lemma OverlappingTransfersLeaveTwoOwners(s: Store, k: ConvId, o: UserId, u: UserId, v: UserId)
    requires OwnedBy(s, k, o) && !BadPair(o, u) && !BadPair(o, v) && u != v
    requires u in s.conversations[k].participants && v in s.conversations[k].participants
    ensures var events := InTurn(TransferOwnership(k, o, u), TransferOwnership(k, o, v), 4);
      var t := ExecAll(World(s, map[], []), events).store;
      k in t.conversations && Owners(t.conversations[k]) == {u, v}
  {
    var p, q := TransferOwnership(k, o, u), TransferOwnership(k, o, v);
    var start := World(s, map[], []);
    OwnerPassesTransferChecks(s, k, o, u);
    OwnerPassesTransferChecks(s, k, o, v);
    BothBegin(s, p, q);
    BothContinue(start, 0, s, p, q, KindStage, KindStage, ActorStage, ActorStage);
    BothContinue(start, 1, s, p, q, ActorStage, ActorStage, TargetStage(Owner), TargetStage(Owner));
    BothContinue(start, 2, s, p, q, TargetStage(Owner), TargetStage(Owner), WriteStage, WriteStage);
    BothWrite(start, 3, s, p, q);
    OwnersAfterTransfer(s, k, o, u);
    OwnersAfterTransfer(Write(s, p).0, k, o, v);
    assert RoleOf(Write(s, p).0, k, v) != None;
  }

  lemma NoneEitherWayRound(s: Store, a: UserId, b: UserId)
    requires FindDirect(s, a, b) == None
    ensures FindDirect(s, b, a) == None
  {
    FindDirectNone(s, a, b);
    FindDirectNone(s, b, a);
    assert forall k :: IsDirectBetween(s, k, b, a) ==> IsDirectBetween(s, k, a, b);
  }

  lemma TwoInserted(s: Store, a: UserId, b: UserId)
    requires a in s.users && b in s.users
    ensures var t := Write(Write(s, CreateDirect(a, b)).0, CreateDirect(b, a)).0;
      IsDirectBetween(t, s.nextId, a, b) && IsDirectBetween(t, s.nextId + 1, a, b)
  {}

  /** Nor is find-or-create: two overlapping calls for one new pair each create a direct chat. */
  lemma OverlappingCreatesLeaveTwoDirectChats(s: Store, a: UserId, b: UserId)
    requires Sound(s) && !BadPair(a, b) && a in s.users && b in s.users && FindDirect(s, a, b) == None
    ensures var t := ExecAll(World(s, map[], []), InTurn(CreateDirect(a, b), CreateDirect(b, a), 2)).store;
      exists j, k :: j != k && IsDirectBetween(t, j, a, b) && IsDirectBetween(t, k, a, b)
  {
    var p, q := CreateDirect(a, b), CreateDirect(b, a);
    var start := World(s, map[], []);
    NoneEitherWayRound(s, a, b);
    BothBegin(s, p, q);
    BothContinue(start, 0, s, p, q, DirectStage, DirectStage, WriteStage, WriteStage);
    BothWrite(start, 1, s, p, q);
    TwoInserted(s, a, b);
  }
}
