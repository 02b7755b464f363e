/**
 Which service calls are accepted and which refused, and with what error, and what an accepted call
 changes: stated through roles and rows as a caller sees them, call by call.
 */
module ConversationEffects {
  import opened Common
  import opened ConversationStore
  import opened ConversationRules
  import Text

  const MIN_ROOM_NAME := 3
  const MAX_ROOM_NAME := 80

  // ---------------------------------------------------------------- accepted and refused

  predicate TwoUsers(a: UserId, b: UserId) { a != NIL_USER && b != NIL_USER && a != b }

  predicate GoodName(name: string) {
    MIN_ROOM_NAME <= Text.Utf8Length(Text.TrimSpace(name)) <= MAX_ROOM_NAME
  }

  predicate IsRoom(s: Store, conv: ConvId) { conv in s.conversations && s.conversations[conv].kind == Room }

  ghost predicate Staff(s: Store, conv: ConvId, u: UserId) {
    RoleOf(s, conv, u) == Some(Owner) || RoleOf(s, conv, u) == Some(Admin)
  }

  /** A participant who is not the owner. */
  ghost predicate Below(s: Store, conv: ConvId, u: UserId) {
    RoleOf(s, conv, u) == Some(Admin) || RoleOf(s, conv, u) == Some(Member)
  }

  /** What a call has to look like before anything is looked up. */
  predicate WellFormed(call: Call) {
    match call
    case CreateRoom(_, name) => GoodName(name)
    case CreateDirect(a, b) => TwoUsers(a, b)
    case AddRoomParticipant(_, a, u) => TwoUsers(a, u)
    case UpdateParticipantRole(_, a, u, role) => TwoUsers(a, u) && (role == Some(Admin) || role == Some(Member))
    case RemoveParticipant(_, a, u) => TwoUsers(a, u)
    case LeaveRoom(_, a) => a != NIL_USER
    case TransferOwnership(_, a, u) => TwoUsers(a, u)
    case UpdateRoomName(_, _, name) => GoodName(name)
    case _ => true
  }

  /** Who may do it, to whom, and where. */
  ghost predicate Entitled(s: Store, call: Call) {
    match call
    case Register(_) => true
    case CreateRoom(a, _) => a in s.users
    case CreateDirect(a, b) => (a in s.users && b in s.users) || exists k :: IsDirectBetween(s, k, a, b)
    case AddRoomParticipant(k, a, u) => IsRoom(s, k) && Staff(s, k, a) && (u in s.users || RoleOf(s, k, u) != None)
    case UpdateParticipantRole(k, a, u, _) => RoleOf(s, k, a) == Some(Owner) && Below(s, k, u)
    case RemoveParticipant(k, a, u) =>
      && IsRoom(s, k)
      && ((RoleOf(s, k, a) == Some(Owner) && Below(s, k, u))
          || (RoleOf(s, k, a) == Some(Admin) && RoleOf(s, k, u) == Some(Member)))
    case LeaveRoom(k, a) => IsRoom(s, k) && Below(s, k, a)
    case TransferOwnership(k, a, u) => IsRoom(s, k) && RoleOf(s, k, a) == Some(Owner) && Below(s, k, u)
    case UpdateRoomName(k, a, _) => IsRoom(s, k) && Staff(s, k, a)
    case DeleteRoom(k, a) => IsRoom(s, k) && RoleOf(s, k, a) == Some(Owner)
    case MarkRead(k, a, _) => RoleOf(s, k, a) != None
  }

  lemma WellFormedIsValid(call: Call)
    ensures WellFormed(call) <==> Validate(call) == None
  {}

  lemma EntitledPassesChecks(s: Store, call: Call)
    requires call.OnConversation() && WellFormed(call) && Entitled(s, call)
    ensures Checks(s, call) == None && !Write(s, call).1.Failed?
  {}

  lemma ChecksEntitle(s: Store, call: Call)
    requires call.OnConversation() && WellFormed(call) && Checks(s, call) == None && !Write(s, call).1.Failed?
    ensures Entitled(s, call)
  {}

  lemma RefusedWriteIsNothing(s: Store, call: Call)
    requires Write(s, call).1.Failed?
    ensures Write(s, call).0 == s
  {}

  /**
   Exactly the calls that are accepted: a well-formed call, by someone with the role for it, on a
   permitted target. A refused call changes nothing.
   */
  lemma AcceptedExactly(s: Store, call: Call)
    ensures var (t, reply) := Apply(s, call);
      && (!reply.Failed? <==> WellFormed(call) && Entitled(s, call))
      && (reply.Failed? ==> t == s)
  {
    WellFormedIsValid(call);
    if call.CreateDirect? {
      FindDirectNone(s, call.actor, call.other);
    } else if call.OnConversation() && WellFormed(call) {
      if Entitled(s, call) { EntitledPassesChecks(s, call); }
      if Checks(s, call) == None && !Write(s, call).1.Failed? { ChecksEntitle(s, call); }
      if Write(s, call).1.Failed? { RefusedWriteIsNothing(s, call); }
    }
  }

  /** The actor has the role for a call that looks its target up. */
  ghost predicate MayAim(s: Store, call: Call) {
    && (call.UpdateParticipantRole? || call.RemoveParticipant? || call.TransferOwnership?)
    && if call.RemoveParticipant? then Staff(s, call.conv, call.actor)
       else RoleOf(s, call.conv, call.actor) == Some(Owner)
  }

  /** The conversation, the actor or the target that a check asks for is not there. */
  ghost predicate Missing(s: Store, call: Call) {
    call.OnConversation() && !call.MarkRead? &&
    (|| (!call.UpdateParticipantRole? && call.conv !in s.conversations)
     || ((call.UpdateParticipantRole? || IsRoom(s, call.conv)) && RoleOf(s, call.conv, call.actor) == None)
     || (&& (call.UpdateParticipantRole? || IsRoom(s, call.conv)) && MayAim(s, call)
         && RoleOf(s, call.conv, call.user) == None))
  }

  /** The error of a refused call, whenever the repository itself works. */
  ghost function Refusal(s: Store, call: Call): Error {
    if !WellFormed(call) then
      if call.CreateRoom? || call.UpdateRoomName? then InvalidRoomName
      else if call.CreateDirect? then InvalidDirectConversation
      else if call.UpdateParticipantRole? && TwoUsers(call.actor, call.user) then InvalidRole
      else InvalidParticipant
    else if call.CreateRoom? || call.CreateDirect? then ForeignKeyViolation
    else if Missing(s, call) then NoRows
    else if call.AddRoomParticipant? && IsRoom(s, call.conv) && Staff(s, call.conv, call.actor) then ForeignKeyViolation
    else ManagementDenied
  }

  lemma RefusedOnConversation(s: Store, call: Call)
    requires call.OnConversation() && WellFormed(call) && !Entitled(s, call) && Validate(call) == None
    ensures Apply(s, call).1 == Failed(Refusal(s, call))
  {}

  /** And exactly the error a refused call is answered with. */
  lemma RefusedWith(s: Store, call: Call)
    ensures var reply := Apply(s, call).1; reply.Failed? ==> reply == Failed(Refusal(s, call))
  {
    AcceptedExactly(s, call);
    WellFormedIsValid(call);
    if call.CreateDirect? {
      FindDirectNone(s, call.actor, call.other);
    } else if call.OnConversation() && WellFormed(call) && !Entitled(s, call) {
      RefusedOnConversation(s, call);
    }
  }

  // ---------------------------------------------------------------- what an accepted call changes

  ghost predicate OnlyConversation(s: Store, t: Store, k: ConvId) {
    && t.users == s.users && t.nextId == s.nextId
    && (forall j | j != k :: j in t.conversations <==> j in s.conversations)
    && (forall j <- s.conversations | j != k :: t.conversations[j] == s.conversations[j])
  }

  /** Nothing but the conversation `k` differs, and that only in the row of `u`. */
  ghost predicate OnlyRow(s: Store, t: Store, k: ConvId, u: UserId) {
    && OnlyConversation(s, t, k) && k in s.conversations && k in t.conversations
    && var c, d := s.conversations[k], t.conversations[k];
    && d.kind == c.kind && d.name == c.name && d.createdBy == c.createdBy
    && (forall v | v != u :: v in d.participants <==> v in c.participants)
    && (forall v <- c.participants | v != u :: d.participants[v] == c.participants[v])
  }

  /** The store of `s` with one conversation more, under a fresh id. */
  ghost predicate Created(s: Store, t: Store, k: ConvId) {
    && k == s.nextId && t.nextId == k + 1 && t.users == s.users && k in t.conversations
    && (forall j | j != k :: j in t.conversations <==> j in s.conversations)
    && (forall j <- s.conversations | j != k :: t.conversations[j] == s.conversations[j])
  }

  ghost predicate HasRow(s: Store, k: ConvId, u: UserId, role: Role, lastRead: Option<Time>) {
    FindParticipant(s, k, u) == Some(Participant(role, lastRead))
  }

  ghost function LastRead(s: Store, k: ConvId, u: UserId): Option<Time> {
    match FindParticipant(s, k, u)
    case None => None
    case Some(row) => row.lastRead
  }

  lemma RegisterEffect(s: Store, user: UserId)
    ensures var (t, reply) := Apply(s, Register(user));
      reply == Done && t.conversations == s.conversations && t.nextId == s.nextId
      && forall u :: u in t.users <==> u in s.users || u == user
  {}

  /** A new room, of the name asked for without its surrounding spaces, with its creator as the owner. */
  lemma CreateRoomEffect(s: Store, a: UserId, name: string)
    requires GoodName(name) && a in s.users
    ensures var (t, reply) := Apply(s, CreateRoom(a, name));
      && reply == ConversationReply(s.nextId, Some(Text.TrimSpace(name))) && Created(s, t, s.nextId)
      && var c := t.conversations[s.nextId];
      && c.kind == Room && c.name == Some(Text.TrimSpace(name)) && c.createdBy == a
      && c.participants.Keys == {a} && HasRow(t, s.nextId, a, Owner, None)
  {
    WellFormedIsValid(CreateRoom(a, name));
  }

  /** A new direct chat of the two, both plain members. */
  lemma CreateDirectEffect(s: Store, a: UserId, b: UserId)
    requires TwoUsers(a, b) && a in s.users && b in s.users && forall k :: !IsDirectBetween(s, k, a, b)
    ensures var (t, reply) := Apply(s, CreateDirect(a, b));
      && reply == ConversationReply(s.nextId, None) && Created(s, t, s.nextId)
      && DirectOf(t.conversations[s.nextId], a, b)
      && HasRow(t, s.nextId, a, Member, None) && HasRow(t, s.nextId, b, Member, None)
  {
    FindDirectNone(s, a, b);
  }

  /** The reply is the row of `u` as it now is. */
  ghost predicate ShowsRow(t: Store, k: ConvId, u: UserId, reply: Reply) {
    FindParticipant(t, k, u).Some? && reply == ParticipantReply(u, FindParticipant(t, k, u).value)
  }

  /** What the row of the call's participant is afterwards, if the call is about one row. */
  ghost predicate RowEffect(s: Store, t: Store, call: Call, reply: Reply) requires call.OnConversation() {
    match call
    case AddRoomParticipant(k, _, u) =>
      && OnlyRow(s, t, k, u) && ShowsRow(t, k, u, reply)
      && (RoleOf(s, k, u) == None ==> HasRow(t, k, u, Member, None))
      && (RoleOf(s, k, u) != None ==> t == s)
    case UpdateParticipantRole(k, _, u, role) =>
      && OnlyRow(s, t, k, u) && RoleOf(t, k, u) == role && LastRead(t, k, u) == LastRead(s, k, u)
      && ShowsRow(t, k, u, reply)
    case RemoveParticipant(k, _, u) => OnlyRow(s, t, k, u) && FindParticipant(t, k, u) == None && reply == Done
    case LeaveRoom(k, a) => OnlyRow(s, t, k, a) && FindParticipant(t, k, a) == None && reply == Done
    case MarkRead(k, a, now) =>
      && OnlyRow(s, t, k, a) && LastRead(t, k, a) == Some(now) && RoleOf(t, k, a) == RoleOf(s, k, a)
      && ShowsRow(t, k, a, reply)
    case _ => true
  }

  lemma RowEffects(s: Store, call: Call)
    requires call.OnConversation() && !Apply(s, call).1.Failed?
    ensures var (t, reply) := Apply(s, call); RowEffect(s, t, call, reply)
  {
    AcceptedExactly(s, call);
  }

  /** The old owner is an admin, the new one the owner, and nobody else is touched. */
  lemma TransferEffect(s: Store, k: ConvId, a: UserId, u: UserId)
    requires !Apply(s, TransferOwnership(k, a, u)).1.Failed?
    ensures var (t, reply) := Apply(s, TransferOwnership(k, a, u));
      && OnlyConversation(s, t, k) && k in s.conversations && k in t.conversations
      && HasRow(t, k, a, Admin, LastRead(s, k, a)) && HasRow(t, k, u, Owner, LastRead(s, k, u))
      && ShowsRow(t, k, u, reply)
      && var c, d := s.conversations[k], t.conversations[k];
      && d.kind == c.kind && d.name == c.name && d.createdBy == c.createdBy
      && d.participants.Keys == c.participants.Keys
      && forall v <- c.participants | v != a && v != u :: d.participants[v] == c.participants[v]
  {
    AcceptedExactly(s, TransferOwnership(k, a, u));
  }

  lemma RenameEffect(s: Store, k: ConvId, a: UserId, name: string)
    requires !Apply(s, UpdateRoomName(k, a, name)).1.Failed?
    ensures var (t, reply) := Apply(s, UpdateRoomName(k, a, name));
      && OnlyConversation(s, t, k) && k in s.conversations
      && (k in t.conversations && t.conversations[k] == s.conversations[k].(name := Some(Text.TrimSpace(name))))
      && reply == ConversationReply(k, Some(Text.TrimSpace(name)))
  {
    AcceptedExactly(s, UpdateRoomName(k, a, name));
  }

  lemma DeleteEffect(s: Store, k: ConvId, a: UserId)
    requires !Apply(s, DeleteRoom(k, a)).1.Failed?
    ensures var (t, reply) := Apply(s, DeleteRoom(k, a));
      OnlyConversation(s, t, k) && k !in t.conversations && reply == Done
  {
    AcceptedExactly(s, DeleteRoom(k, a));
  }
}
