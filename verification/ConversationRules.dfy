/**
 The rules of ownership and of direct chats with every service call taken as one step: the coarse
 grain. What a single write does to them, which both grains need, comes first.
 */
module ConversationRules {
  import opened Common
  import opened ConversationStore
  import Text

  // ---------------------------------------------------------------- one write and the owner of its room

  lemma OwnersAfterSet(c: Conversation, u: UserId, row: Participant)
    ensures var d := c.(participants := c.participants[u := row]);
      && Owners(d) == (if row.role == Owner then Owners(c) + {u} else Owners(c) - {u})
      && Admins(d) == (if row.role == Admin then Admins(c) + {u} else Admins(c) - {u})
  {}

  lemma OwnersAfterRemove(c: Conversation, u: UserId)
    ensures var d := c.(participants := c.participants - {u});
      Owners(d) == Owners(c) - {u} && Admins(d) == Admins(c) - {u}
  {}

  ghost function RoleOf(s: Store, conv: ConvId, user: UserId): Option<Role> {
    match FindParticipant(s, conv, user)
    case None => None
    case Some(row) => Some(row.role)
  }

  /** What a write would have to look at again, when it runs, not to disturb the room's one owner. */
  ghost predicate StillSafe(s: Store, call: Call) {
    match call
    case TransferOwnership(conv, actor, user) =>
      RoleOf(s, conv, user) == None || RoleOf(s, conv, actor) == Some(Owner) || RoleOf(s, conv, user) == Some(Owner)
    case RemoveParticipant(conv, _, user) => RoleOf(s, conv, user) != Some(Owner)
    case UpdateParticipantRole(conv, _, user, _) => RoleOf(s, conv, user) != Some(Owner)
    case LeaveRoom(conv, actor) => RoleOf(s, conv, actor) != Some(Owner)
    case _ => true
  }

  lemma OwnersAfterTransfer(s: Store, conv: ConvId, current: UserId, next: UserId)
    requires conv in s.conversations && current != next
    ensures var t := Transfer(s, conv, current, next).0;
      && conv in t.conversations
      && (RoleOf(s, conv, next) == None ==> t == s)
      && (RoleOf(s, conv, next) != None ==>
            && Owners(t.conversations[conv]) == Owners(s.conversations[conv]) - {current} + {next}
            && Admins(t.conversations[conv]) <= Admins(s.conversations[conv]) + {current})
  {
    var c := s.conversations[conv];
    if current in c.participants {
      var row := c.participants[current].(role := Admin);
      OwnersAfterSet(c, current, row);
      var d := c.(participants := c.participants[current := row]);
      if next in d.participants { OwnersAfterSet(d, next, d.participants[next].(role := Owner)); }
    } else if next in c.participants {
      OwnersAfterSet(c, next, c.participants[next].(role := Owner));
    }
  }

  /**
   In a room with exactly one owner, a validated write leaves exactly one owner if and only if its
   condition is still true when it runs. This holds of any write, however stale its checks are.
   */
  lemma WriteKeepsOneOwnerExactly(s: Store, call: Call)
    requires call.OnConversation() && call.conv in s.conversations && OneOwner(s.conversations[call.conv])
    requires Validate(call) == None
    ensures var t := Write(s, call).0;
      call.conv in t.conversations ==> (OneOwner(t.conversations[call.conv]) <==> StillSafe(s, call))
  {
    var c := s.conversations[call.conv];
    var o :| Owners(c) == {o};
    var t := Write(s, call).0;
    assert forall u :: u in Owners(c) <==> RoleOf(s, call.conv, u) == Some(Owner);
    match call
    case TransferOwnership(conv, actor, user) =>
      OwnersAfterTransfer(s, conv, actor, user);
      if RoleOf(s, conv, user) != None {
        var owners := Owners(t.conversations[conv]);
        assert user in owners;
        if actor == o || user == o { assert owners == {user}; }
        else { assert o in owners && user != o; }
      }
    case RemoveParticipant(conv, _, user) => OwnersAfterRemove(c, user);
    case LeaveRoom(conv, actor) => OwnersAfterRemove(c, actor);
    case UpdateParticipantRole(conv, _, user, role) =>
      if user in c.participants {
        OwnersAfterSet(c, user, c.participants[user].(role := role.value));
        assert user in Owners(c) ==> Owners(t.conversations[conv]) == {};
      }
    case AddRoomParticipant(conv, _, user) => OwnersAfterSet(c, user, Participant(Member, None));
    case MarkRead(conv, actor, now) =>
      if actor in c.participants {
        OwnersAfterSet(c, actor, c.participants[actor].(lastRead := Some(now)));
        assert Owners(t.conversations[conv]) == {o};
      }
    case UpdateRoomName(conv, _, name) => assert Owners(t.conversations[conv]) == Owners(c);
    case DeleteRoom(_, _) =>
  }

  /** A write touches one conversation only. */
  lemma WriteIsLocal(s: Store, call: Call, k: ConvId)
    requires k in s.conversations && k < s.nextId && !(call.OnConversation() && call.conv == k)
    ensures var t := Write(s, call).0; k in t.conversations && t.conversations[k] == s.conversations[k]
  {}

  lemma WriteKeepsOtherIds(s: Store, call: Call, k: ConvId)
    requires k in Write(s, call).0.conversations && k !in s.conversations
    ensures k == s.nextId && (call.CreateRoom? || call.CreateDirect?)
  {}

  // ---------------------------------------------------------------- one write and the direct chats

  /** `k` was issued and is not a direct chat. Stays true for ever. */
  ghost predicate RoomId(s: Store, k: ConvId) {
    k < s.nextId && (k in s.conversations ==> s.conversations[k].kind == Room)
  }

  /** Nothing but reading marks differs. */
  ghost predicate SameShape(c: Conversation, d: Conversation) {
    && c.kind == d.kind && c.name == d.name && c.createdBy == d.createdBy
    && c.participants.Keys == d.participants.Keys
    && forall u <- c.participants :: c.participants[u].role == d.participants[u].role
  }

  ghost predicate DirectsKept(s: Store, t: Store) {
    && s.nextId <= t.nextId
    && (forall k <- s.conversations | s.conversations[k].kind == Direct ::
          k in t.conversations && SameShape(s.conversations[k], t.conversations[k]))
    && (forall k :: RoomId(s, k) ==> RoomId(t, k))
  }

  lemma SameShapeKeepsDirect(c: Conversation, d: Conversation)
    requires SameShape(c, d)
    ensures forall a, b :: DirectOf(c, a, b) ==> DirectOf(d, a, b)
  {}

  lemma WriteKeepsKinds(s: Store, call: Call, k: ConvId)
    requires k in s.conversations && k < s.nextId && k in Write(s, call).0.conversations
    ensures Write(s, call).0.conversations[k].kind == s.conversations[k].kind
  {}

  /** A write aimed at a room, whatever has happened since its checks, leaves every direct chat alone. */
  lemma WriteKeepsDirects(s: Store, call: Call)
    requires Sound(s) && Validate(call) == None && (call.ChecksActor() ==> RoomId(s, call.conv))
    ensures var t := Write(s, call).0; Sound(t) && DirectsKept(s, t)
  {
    var t := Write(s, call).0;
    forall k <- s.conversations | s.conversations[k].kind == Direct
      ensures k in t.conversations && SameShape(s.conversations[k], t.conversations[k])
    {
      if !(call.OnConversation() && call.conv == k) { WriteIsLocal(s, call, k); }
    }
    forall k | RoomId(s, k) ensures RoomId(t, k) {
      if k in t.conversations {
        if k in s.conversations { WriteKeepsKinds(s, call, k); } else { WriteKeepsOtherIds(s, call, k); }
      }
    }
    forall k <- t.conversations
      ensures k < t.nextId
      ensures t.conversations[k].kind == Direct ==> exists a, b :: DirectOf(t.conversations[k], a, b)
    {
      if k !in s.conversations {
        WriteKeepsOtherIds(s, call, k);
        if call.CreateDirect? { assert DirectOf(t.conversations[k], call.actor, call.other); }
      } else {
        WriteKeepsKinds(s, call, k);
        if s.conversations[k].kind == Direct {
          var a, b :| DirectOf(s.conversations[k], a, b);
          SameShapeKeepsDirect(s.conversations[k], t.conversations[k]);
        }
      }
    }
  }

  /** Passing the actor check proves the conversation is a room, even where no one asks for its kind. */
  lemma PassedActorCheckMeansRoom(s: Store, call: Call)
    requires Sound(s) && call.ChecksActor() && CheckActor(s, call) == None
    requires call.ChecksKind() ==> CheckKind(s, call.conv) == None
    ensures RoomId(s, call.conv)
  {}

  /** No write, however stale its checks, gives a room a name that validation would have refused. */
  lemma WriteKeepsRoomsNamed(s: Store, call: Call)
    requires Sound(s) && RoomsNamed(s) && Validate(call) == None
    ensures RoomsNamed(Write(s, call).0)
  {
    var t := Write(s, call).0;
    if call.CreateRoom? || call.UpdateRoomName? { Text.TrimmedStays(call.name); }
    forall k <- t.conversations | t.conversations[k].kind == Room
      ensures t.conversations[k].name.Some? && ProperName(t.conversations[k].name.value)
    {
      if k in s.conversations {
        WriteKeepsKinds(s, call, k);
        if !(call.OnConversation() && call.conv == k) { WriteIsLocal(s, call, k); }
      } else {
        WriteKeepsOtherIds(s, call, k);
      }
    }
  }

  // ---------------------------------------------------------------- whole calls

  lemma PassedChecksAreSafe(s: Store, call: Call)
    requires Validate(call) == None && Checks(s, call) == None
    ensures StillSafe(s, call)
  {}

  ghost predicate Good(s: Store) { Sound(s) && RoomsOwned(s) && DirectsUnique(s) }

  /** What a write would have to look at again not to open a second direct chat for a pair. */
  ghost predicate StillNew(s: Store, call: Call) {
    !(call.CreateDirect? && call.actor in s.users && call.other in s.users
      && FindDirect(s, call.actor, call.other) != None)
  }

  lemma WriteKeepsRoomsOwned(s: Store, call: Call)
    requires Sound(s) && RoomsOwned(s) && Validate(call) == None && StillSafe(s, call)
    ensures RoomsOwned(Write(s, call).0)
  {
    var t := Write(s, call).0;
    forall k <- t.conversations | t.conversations[k].kind == Room ensures OneOwner(t.conversations[k]) {
      if k !in s.conversations {
        WriteKeepsOtherIds(s, call, k);
        assert Owners(t.conversations[k]) == {call.actor};
      } else {
        WriteKeepsKinds(s, call, k);
        if call.OnConversation() && call.conv == k {
          WriteKeepsOneOwnerExactly(s, call);
        } else {
          WriteIsLocal(s, call, k);
        }
      }
    }
  }

  lemma DirectMembers(s: Store, k: ConvId, a: UserId, b: UserId)
    requires Sound(s) && IsDirectBetween(s, k, a, b) && a != b
    ensures s.conversations[k].participants.Keys == {a, b}
  {
    var c := s.conversations[k];
    assert exists x, y :: DirectOf(c, x, y);
    var x: UserId, y: UserId :| DirectOf(c, x, y);
    assert a in {x, y} && b in {x, y};
  }

  /** Who is in direct chat `k` is the same before and after, or `k` is the chat just created. */
  lemma DirectBetweenAfter(s: Store, call: Call, k: ConvId, a: UserId, b: UserId)
    requires Sound(s) && Validate(call) == None && (call.ChecksActor() ==> RoomId(s, call.conv))
    requires a != b && IsDirectBetween(Write(s, call).0, k, a, b)
    ensures IsDirectBetween(s, k, a, b) || (call.CreateDirect? && k == s.nextId && {call.actor, call.other} == {a, b})
  {
    WriteKeepsDirects(s, call);
    var t := Write(s, call).0;
    if k !in s.conversations {
      WriteKeepsOtherIds(s, call, k);
      DirectMembers(t, k, a, b);
    } else {
      WriteKeepsKinds(s, call, k);
      assert SameShape(s.conversations[k], t.conversations[k]);
    }
  }

  lemma FindDirectNone(s: Store, a: UserId, b: UserId)
    ensures FindDirect(s, a, b) == None <==> forall k :: !IsDirectBetween(s, k, a, b)
  {
    var matches := set k | k in s.conversations && IsDirectBetween(s, k, a, b);
    assert forall k :: IsDirectBetween(s, k, a, b) ==> k in matches;
  }

  lemma WriteKeepsDirectsUnique(s: Store, call: Call)
    requires Sound(s) && DirectsUnique(s) && Validate(call) == None
    requires (call.ChecksActor() ==> RoomId(s, call.conv)) && ExistingDirect(s, call) == None
    ensures DirectsUnique(Write(s, call).0)
  {
    var t := Write(s, call).0;
    forall j <- t.conversations, k <- t.conversations, a, b
      | IsDirectBetween(t, j, a, b) && IsDirectBetween(t, k, a, b) && a != b
      ensures j == k
    {
      DirectBetweenAfter(s, call, j, a, b);
      DirectBetweenAfter(s, call, k, a, b);
      if call.CreateDirect? {
        FindDirectNone(s, call.actor, call.other);
        assert IsDirectBetween(s, j, a, b) ==> IsDirectBetween(s, j, b, a);
        assert IsDirectBetween(s, k, a, b) ==> IsDirectBetween(s, k, b, a);
      }
    }
  }

  /**
   Stale checks and all, a write that reaches its room leaves every room with one owner if and only if
   its condition is still true when it runs.
   */
  lemma WriteKeepsRoomsOwnedExactly(s: Store, call: Call)
    requires Sound(s) && RoomsOwned(s) && Validate(call) == None && (call.ChecksActor() ==> RoomId(s, call.conv))
    ensures RoomsOwned(Write(s, call).0) <==> StillSafe(s, call)
  {
    if StillSafe(s, call) {
      WriteKeepsRoomsOwned(s, call);
    } else {
      assert call.conv in s.conversations && s.conversations[call.conv].kind == Room;
      WriteKeepsOneOwnerExactly(s, call);
      WriteKeepsKinds(s, call, call.conv);
    }
  }

  /** Likewise a pair keeps at most one direct chat if and only if none is there when one is inserted. */
  lemma WriteKeepsDirectsUniqueExactly(s: Store, call: Call)
    requires Sound(s) && DirectsUnique(s) && Validate(call) == None && (call.ChecksActor() ==> RoomId(s, call.conv))
    ensures DirectsUnique(Write(s, call).0) <==> StillNew(s, call)
  {
    var t := Write(s, call).0;
    if !StillNew(s, call) {
      var a, b := call.actor, call.other;
      FindDirectNone(s, a, b);
      var k :| IsDirectBetween(s, k, a, b);
      WriteIsLocal(s, call, k);
      assert IsDirectBetween(t, k, a, b) && IsDirectBetween(t, s.nextId, a, b);
    } else if !call.CreateDirect? || ExistingDirect(s, call) == None {
      WriteKeepsDirectsUnique(s, call);
    }
  }

  lemma TryKeepsGood(s: Store, a: Attempt)
    requires Good(s)
    ensures Good(Try(s, a).0) && DirectsKept(s, Try(s, a).0)
  {
    var call := a.call;
    if !a.fault && Validate(call) == None && Checks(s, call) == None && ExistingDirect(s, call) == None {
      if call.ChecksActor() { PassedActorCheckMeansRoom(s, call); }
      PassedChecksAreSafe(s, call);
      WriteKeepsDirects(s, call);
      WriteKeepsRoomsOwned(s, call);
      WriteKeepsDirectsUnique(s, call);
    }
  }

  lemma {:induction false} RunKeepsGood(s: Store, attempts: seq<Attempt>)
    requires Good(s)
    ensures Good(Run(s, attempts)) && DirectsKept(s, Run(s, attempts))
  {
    if attempts != [] {
      var n := |attempts| - 1;
      var mid := Run(s, attempts[..n]);
      RunKeepsGood(s, attempts[..n]);
      TryKeepsGood(mid, attempts[n]);
    }
  }

  /**
   One owner: from an empty database, after any sequence of whole calls, successful, refused or cut
   short, every room that exists has exactly one owner.
   */
  lemma EveryRoomHasOneOwner(attempts: seq<Attempt>, k: ConvId)
    requires var s := Run(EMPTY, attempts); k in s.conversations && s.conversations[k].kind == Room
    ensures exists o :: Owners(Run(EMPTY, attempts).conversations[k]) == {o}
  {
    RunKeepsGood(EMPTY, attempts);
    assert OneOwner(Run(EMPTY, attempts).conversations[k]);
  }

  // ---------------------------------------------------------------- find-or-create of direct chats

  lemma FindDirectUnique(s: Store, k: ConvId, a: UserId, b: UserId)
    requires DirectsUnique(s) && a != b && IsDirectBetween(s, k, a, b)
    ensures FindDirect(s, a, b) == Some(k) && FindDirect(s, b, a) == Some(k)
  {
    assert forall j :: IsDirectBetween(s, j, b, a) <==> IsDirectBetween(s, j, a, b);
    FindDirectNone(s, a, b);
    FindDirectNone(s, b, a);
  }

  lemma AnsweredIsThere(s0: Store, a: UserId, b: UserId)
    requires Good(s0) && Apply(s0, CreateDirect(a, b)).1.ConversationReply?
    ensures var (s, reply) := Apply(s0, CreateDirect(a, b));
      && Good(s) && !BadPair(a, b)
      && IsDirectBetween(s, reply.id, a, b) && s.conversations[reply.id].name == reply.name
  {
    TryKeepsGood(s0, Attempt(CreateDirect(a, b), false));
    FindDirectNone(s0, a, b);
  }

  lemma FoundAgain(t: Store, k: ConvId, a: UserId, b: UserId)
    requires DirectsUnique(t) && !BadPair(a, b) && IsDirectBetween(t, k, a, b)
    ensures var reply := ConversationReply(k, t.conversations[k].name);
      && Apply(t, CreateDirect(a, b)) == (t, reply)
      && Apply(t, CreateDirect(b, a)) == (t, reply)
      && (forall j :: IsDirectBetween(t, j, a, b) ==> j == k)
  {
    FindDirectUnique(t, k, a, b);
  }

  /**
   Once a call to open the direct chat of two users has answered with an id, every later call for the
   same two, either way round, answers with that id and changes nothing; and there is no other.
   */
  lemma DirectIsFoundEverAfter(before: seq<Attempt>, a: UserId, b: UserId, after: seq<Attempt>)
    requires Apply(Run(EMPTY, before), CreateDirect(a, b)).1.ConversationReply?
    ensures var (s, reply) := Apply(Run(EMPTY, before), CreateDirect(a, b));
      var t := Run(s, after);
      && Apply(t, CreateDirect(a, b)) == (t, reply)
      && Apply(t, CreateDirect(b, a)) == (t, reply)
      && (forall k :: IsDirectBetween(t, k, a, b) ==> k == reply.id)
  {
    var (s, reply) := Apply(Run(EMPTY, before), CreateDirect(a, b));
    RunKeepsGood(EMPTY, before);
    AnsweredIsThere(Run(EMPTY, before), a, b);
    RunKeepsGood(s, after);
    var t := Run(s, after);
    assert SameShape(s.conversations[reply.id], t.conversations[reply.id]);
    FoundAgain(t, reply.id, a, b);
  }

  // ---------------------------------------------------------------- no rise without the owner

  /** `call` is a management call on room `k` made by `o`. */
  ghost predicate ActsOn(call: Call, k: ConvId, o: UserId) {
    call.ChecksActor() && call.conv == k && call.actor == o
  }

  ghost predicate OwnedBy(s: Store, k: ConvId, o: UserId) {
    k in s.conversations && s.conversations[k].kind == Room && Owners(s.conversations[k]) == {o}
  }

  ghost predicate LeftBetween(attempts: seq<Attempt>, k: ConvId, u: UserId) {
    Attempt(LeaveRoom(k, u), false) in attempts
  }

  lemma WriteWithoutOwner(s: Store, k: ConvId, o: UserId, call: Call)
    requires OwnedBy(s, k, o) && call.OnConversation() && call.conv == k && !ActsOn(call, k, o)
    requires Validate(call) == None && Checks(s, call) == None
    ensures var t := Write(s, call).0;
      && OwnedBy(t, k, o)
      && Admins(t.conversations[k]) <= Admins(s.conversations[k])
      && (forall u <- Admins(s.conversations[k]) - Admins(t.conversations[k]) :: call == LeaveRoom(k, u))
  {
    var c := s.conversations[k];
    assert forall u ::
      u in Owners(c) <==> FindParticipant(s, k, u).Some? && FindParticipant(s, k, u).value.role == Owner;
    match call
    case AddRoomParticipant(_, _, user) => OwnersAfterSet(c, user, Participant(Member, None));
    case RemoveParticipant(_, _, user) => OwnersAfterRemove(c, user);
    case LeaveRoom(_, actor) => OwnersAfterRemove(c, actor);
    case MarkRead(_, actor, now) => OwnersAfterSet(c, actor, c.participants[actor].(lastRead := Some(now)));
    case UpdateRoomName(_, _, _) =>
      var d := Write(s, call).0.conversations[k];
      assert Owners(d) == Owners(c) && Admins(d) == Admins(c);
    case _ => assert false;
  }

  lemma StepWithoutOwner(s: Store, k: ConvId, o: UserId, a: Attempt)
    requires Good(s) && OwnedBy(s, k, o) && !ActsOn(a.call, k, o)
    ensures var t := Try(s, a).0;
      && OwnedBy(t, k, o)
      && Admins(t.conversations[k]) <= Admins(s.conversations[k])
      && (forall u <- Admins(s.conversations[k]) - Admins(t.conversations[k]) :: a == Attempt(LeaveRoom(k, u), false))
  {
    var call := a.call;
    if !a.fault && Validate(call) == None && Checks(s, call) == None && ExistingDirect(s, call) == None {
      if call.OnConversation() && call.conv == k {
        WriteWithoutOwner(s, k, o, call);
      } else {
        WriteIsLocal(s, call, k);
      }
    }
  }

  /**
   In any run of whole calls in which a room's owner does nothing to the room, the room keeps
   existing with that owner, nobody becomes an admin, and an admin stops being one only by leaving.
   */
  lemma {:induction false} NoRiseWithoutTheOwner(s: Store, k: ConvId, o: UserId, attempts: seq<Attempt>)
    requires Good(s) && OwnedBy(s, k, o) && forall a <- attempts :: !ActsOn(a.call, k, o)
    ensures var t := Run(s, attempts);
      && OwnedBy(t, k, o)
      && Admins(t.conversations[k]) <= Admins(s.conversations[k])
      && (forall u <- Admins(s.conversations[k]) - Admins(t.conversations[k]) :: LeftBetween(attempts, k, u))
  {
    if attempts != [] {
      var n := |attempts| - 1;
      NoRiseWithoutTheOwner(s, k, o, attempts[..n]);
      RunKeepsGood(s, attempts[..n]);
      assert attempts[n] in attempts;
      StepWithoutOwner(Run(s, attempts[..n]), k, o, attempts[n]);
      forall u <- Admins(s.conversations[k]) - Admins(Run(s, attempts).conversations[k])
        ensures LeftBetween(attempts, k, u)
      {
        if u !in Admins(Run(s, attempts[..n]).conversations[k]) { assert LeftBetween(attempts[..n], k, u); }
      }
    }
  }

  /** Adding someone who is already in changes no row at all. */
  lemma ReAddingChangesNothing(s: Store, conv: ConvId, actor: UserId, user: UserId)
    requires FindParticipant(s, conv, user).Some?
    ensures Apply(s, AddRoomParticipant(conv, actor, user)).0 == s
  {}
}
