/**
 The conversation repository and service in the form they have: a repository whose statements change
 tables in place, and a service whose methods look things up one after another and end in one write.
 Every service method is proved to do what `Apply` says of the whole call.
 */
module ConversationService {
  import opened Common
  import opened ConversationStore
  import Text

  /** Where in its transaction the database stops answering. */
  datatype TxFault = NoFault | BeginFails | DemoteFails | PromoteFails | CommitFails

  class ConversationRepository {
    var users: set<UserId>
    var conversations: map<ConvId, Conversation>
    var nextId: ConvId

    ghost function View(): Store reads this { Store(users, conversations, nextId) }

    constructor ()
      ensures View() == EMPTY
    {
      users, conversations, nextId := {}, map[], 0;
    }

    method CreateRoom(creator: UserId, name: string) returns (reply: Reply)
      modifies this
      ensures (View(), reply) == InsertRoom(old(View()), creator, name)
    {
      if creator !in users {
        return Failed(ForeignKeyViolation);
      }
      var id := nextId;
      nextId := nextId + 1;
      conversations := conversations[id := Conversation(Room, Some(name), creator, map[])];
      var rows := map[creator := Participant(Owner, None)];
      conversations := conversations[id := conversations[id].(participants := rows)];
      assert conversations == InsertRoom(old(View()), creator, name).0.conversations;
      reply := ConversationReply(id, Some(name));
    }

    method CreateDirect(user: UserId, other: UserId) returns (reply: Reply)
      modifies this
      ensures (View(), reply) == InsertDirect(old(View()), user, other)
    {
      if user !in users || other !in users {
        return Failed(ForeignKeyViolation);
      }
      var id := nextId;
      nextId := nextId + 1;
      var rows := map[user := Participant(Member, None), other := Participant(Member, None)];
      conversations := conversations[id := Conversation(Direct, None, user, rows)];
      reply := ConversationReply(id, None);
    }

    method FindDirectBetweenUsers(user: UserId, other: UserId) returns (found: Option<ConvId>)
      ensures found == FindDirect(View(), user, other)
    {
      found := None;
      var unread := conversations.Keys;
      ghost var s := View();
      ghost var matches := set k | k in s.conversations && IsDirectBetween(s, k, user, other);
      while unread != {}
        invariant unread <= conversations.Keys
        invariant found.None? ==> matches <= unread
        invariant found.Some? ==> found.value in matches && forall k <- matches :: k !in unread ==> found.value <= k
        decreases unread
      {
        var k :| k in unread;
        unread := unread - {k};
        var c := conversations[k];
        assert k in matches <==> IsDirectBetween(s, k, user, other);
        if c.kind == Direct && user in c.participants && other in c.participants {
          if found.None? || k < found.value {
            found := Some(k);
          }
        }
      }
    }

    method FindByID(conv: ConvId) returns (found: Option<Conversation>)
      ensures found == if conv in conversations then Some(conversations[conv]) else None
    {
      found := if conv in conversations then Some(conversations[conv]) else None;
    }

    method FindParticipant(conv: ConvId, user: UserId) returns (found: Option<Participant>)
      ensures found == ConversationStore.FindParticipant(View(), conv, user)
    {
      if conv in conversations && user in conversations[conv].participants {
        found := Some(conversations[conv].participants[user]);
      } else {
        found := None;
      }
    }

    method AddParticipant(conv: ConvId, user: UserId, role: Role) returns (reply: Reply)
      modifies this`conversations
      ensures (View(), reply) == ConversationStore.AddParticipant(old(View()), conv, user, role)
    {
      if conv in conversations && user in conversations[conv].participants {
        return ParticipantReply(user, conversations[conv].participants[user]);
      }
      if conv !in conversations || user !in users {
        return Failed(ForeignKeyViolation);
      }
      var c := conversations[conv];
      var row := Participant(role, None);
      conversations := conversations[conv := c.(participants := c.participants[user := row])];
      reply := ParticipantReply(user, row);
    }

    method UpdateParticipantRole(conv: ConvId, user: UserId, role: Option<Role>) returns (reply: Reply)
      modifies this`conversations
      ensures (View(), reply) == SetRole(old(View()), conv, user, role)
    {
      if conv !in conversations || user !in conversations[conv].participants {
        return Failed(NoRows);
      }
      if role.None? {
        return Failed(CheckViolation);
      }
      var c := conversations[conv];
      var row := c.participants[user].(role := role.value);
      conversations := conversations[conv := c.(participants := c.participants[user := row])];
      reply := ParticipantReply(user, row);
    }

    method RemoveParticipant(conv: ConvId, user: UserId) returns (reply: Reply)
      modifies this`conversations
      ensures (View(), reply) == RemoveRow(old(View()), conv, user)
    {
      if conv in conversations {
        var c := conversations[conv];
        conversations := conversations[conv := c.(participants := c.participants - {user})];
      }
      reply := Done;
    }

    method MarkRead(conv: ConvId, user: UserId, now: Time) returns (reply: Reply)
      modifies this`conversations
      ensures (View(), reply) == UpdateRow(old(View()), conv, user, (row: Participant) => row.(lastRead := Some(now)))
    {
      if conv !in conversations || user !in conversations[conv].participants {
        return Failed(NoRows);
      }
      var c := conversations[conv];
      var row := c.participants[user].(lastRead := Some(now));
      conversations := conversations[conv := c.(participants := c.participants[user := row])];
      reply := ParticipantReply(user, row);
    }

    method UpdateRoomName(conv: ConvId, name: string) returns (reply: Reply)
      modifies this`conversations
      ensures (View(), reply) == Rename(old(View()), conv, name)
    {
      if conv !in conversations {
        return Failed(NoRows);
      }
      if conversations[conv].kind == Direct {
        return Failed(CheckViolation);
      }
      conversations := conversations[conv := conversations[conv].(name := Some(name))];
      reply := ConversationReply(conv, Some(name));
    }

    method DeleteConversation(conv: ConvId) returns (reply: Reply)
      modifies this`conversations
      ensures View() == old(View()).(conversations := old(conversations) - {conv}) && reply == Done
    {
      conversations := conversations - {conv};
      reply := Done;
    }

    /**
     The transaction works on a copy of the tables that only the commit installs: whatever fails,
     a missing row to promote included, the demotion is not seen.
     */
    method TransferOwnership(conv: ConvId, current: UserId, next: UserId, fault: TxFault) returns (reply: Reply)
      modifies this`conversations
      ensures reply.Failed? ==> View() == old(View())
      ensures fault.NoFault? ==> (View(), reply) == Transfer(old(View()), conv, current, next)
      ensures !fault.NoFault? ==> reply.Failed?
      ensures !reply.Failed? ==>
        && conv in conversations && next in conversations[conv].participants
        && conversations[conv].participants[next].role == Owner
        && (current != next && current in conversations[conv].participants ==>
              conversations[conv].participants[current].role == Admin)
    {
      if fault.BeginFails? {
        return Failed(Unavailable);
      }
      var tx := conversations;
      if fault.DemoteFails? {
        return Failed(Unavailable);
      }
      if conv in tx && current in tx[conv].participants {
        var demoted := tx[conv].participants[current].(role := Admin);
        tx := tx[conv := tx[conv].(participants := tx[conv].participants[current := demoted])];
      }
      if fault.PromoteFails? {
        return Failed(Unavailable);
      }
      if conv !in tx || next !in tx[conv].participants {
        return Failed(NoRows);
      }
      var promoted := tx[conv].participants[next].(role := Owner);
      tx := tx[conv := tx[conv].(participants := tx[conv].participants[next := promoted])];
      if fault.CommitFails? {
        return Failed(Unavailable);
      }
      conversations := tx;
      reply := ParticipantReply(next, promoted);
    }
  }

  class ConversationService {
    const repo: ConversationRepository

    constructor (repo: ConversationRepository)
      ensures this.repo == repo
    {
      this.repo := repo;
    }

    method CreateRoom(creator: UserId, input: string) returns (reply: Reply)
      modifies repo
      ensures (repo.View(), reply) == Apply(old(repo.View()), Call.CreateRoom(creator, input))
    {
      var name := Text.TrimSpace(input);
      if Text.Utf8Length(name) < 3 || Text.Utf8Length(name) > 80 {
        return Failed(InvalidRoomName);
      }
      reply := repo.CreateRoom(creator, name);
    }

    method CreateDirect(user: UserId, other: UserId) returns (reply: Reply)
      modifies repo
      ensures (repo.View(), reply) == Apply(old(repo.View()), Call.CreateDirect(user, other))
    {
      if user == NIL_USER || other == NIL_USER || user == other {
        return Failed(InvalidDirectConversation);
      }
      var existing := repo.FindDirectBetweenUsers(user, other);
      if existing.Some? {
        return ConversationReply(existing.value, repo.conversations[existing.value].name);
      }
      reply := repo.CreateDirect(user, other);
    }

    method MarkRead(conv: ConvId, user: UserId, now: Time) returns (reply: Reply)
      modifies repo
      ensures (repo.View(), reply) == Apply(old(repo.View()), Call.MarkRead(conv, user, now))
    {
      var participant := repo.FindParticipant(conv, user);
      if participant.None? {
        return Failed(ManagementDenied);
      }
      reply := repo.MarkRead(conv, user, now);
    }

    method AddRoomParticipant(conv: ConvId, actorId: UserId, user: UserId) returns (reply: Reply)
      modifies repo
      ensures (repo.View(), reply) == Apply(old(repo.View()), Call.AddRoomParticipant(conv, actorId, user))
    {
      if user == NIL_USER || actorId == NIL_USER || user == actorId {
        return Failed(InvalidParticipant);
      }
      var conversation := repo.FindByID(conv);
      if conversation.None? {
        return Failed(NoRows);
      }
      if conversation.value.kind != Room {
        return Failed(ManagementDenied);
      }
      var actor := repo.FindParticipant(conv, actorId);
      if actor.None? {
        return Failed(NoRows);
      }
      if actor.value.role != Owner && actor.value.role != Admin {
        return Failed(ManagementDenied);
      }
      reply := repo.AddParticipant(conv, user, Member);
    }

    method UpdateParticipantRole(conv: ConvId, actorId: UserId, user: UserId, role: Option<Role>)
      returns (reply: Reply)
      modifies repo
      ensures (repo.View(), reply) == Apply(old(repo.View()), Call.UpdateParticipantRole(conv, actorId, user, role))
    {
      if user == NIL_USER || actorId == NIL_USER || user == actorId {
        return Failed(InvalidParticipant);
      }
      if role != Some(Admin) && role != Some(Member) {
        return Failed(InvalidRole);
      }
      var actor := repo.FindParticipant(conv, actorId);
      if actor.None? {
        return Failed(NoRows);
      }
      if actor.value.role != Owner {
        return Failed(ManagementDenied);
      }
      var target := repo.FindParticipant(conv, user);
      if target.None? {
        return Failed(NoRows);
      }
      if target.value.role == Owner {
        return Failed(ManagementDenied);
      }
      reply := repo.UpdateParticipantRole(conv, user, role);
    }

    method RemoveParticipant(conv: ConvId, actorId: UserId, user: UserId) returns (reply: Reply)
      modifies repo
      ensures (repo.View(), reply) == Apply(old(repo.View()), Call.RemoveParticipant(conv, actorId, user))
    {
      if user == NIL_USER || actorId == NIL_USER || user == actorId {
        return Failed(InvalidParticipant);
      }
      var conversation := repo.FindByID(conv);
      if conversation.None? {
        return Failed(NoRows);
      }
      if conversation.value.kind != Room {
        return Failed(ManagementDenied);
      }
      var actor := repo.FindParticipant(conv, actorId);
      if actor.None? {
        return Failed(NoRows);
      }
      if actor.value.role != Owner && actor.value.role != Admin {
        return Failed(ManagementDenied);
      }
      var target := repo.FindParticipant(conv, user);
      if target.None? {
        return Failed(NoRows);
      }
      if target.value.role == Owner {
        return Failed(ManagementDenied);
      }
      if actor.value.role == Admin && target.value.role != Member {
        return Failed(ManagementDenied);
      }
      reply := repo.RemoveParticipant(conv, user);
    }

    method LeaveRoom(conv: ConvId, user: UserId) returns (reply: Reply)
      modifies repo
      ensures (repo.View(), reply) == Apply(old(repo.View()), Call.LeaveRoom(conv, user))
    {
      if user == NIL_USER {
        return Failed(InvalidParticipant);
      }
      var conversation := repo.FindByID(conv);
      if conversation.None? {
        return Failed(NoRows);
      }
      if conversation.value.kind != Room {
        return Failed(ManagementDenied);
      }
      var participant := repo.FindParticipant(conv, user);
      if participant.None? {
        return Failed(NoRows);
      }
      if participant.value.role == Owner {
        return Failed(ManagementDenied);
      }
      reply := repo.RemoveParticipant(conv, user);
    }

    method TransferOwnership(conv: ConvId, actorId: UserId, user: UserId) returns (reply: Reply)
      modifies repo
      ensures (repo.View(), reply) == Apply(old(repo.View()), Call.TransferOwnership(conv, actorId, user))
    {
      if user == NIL_USER || actorId == NIL_USER || user == actorId {
        return Failed(InvalidParticipant);
      }
      var conversation := repo.FindByID(conv);
      if conversation.None? {
        return Failed(NoRows);
      }
      if conversation.value.kind != Room {
        return Failed(ManagementDenied);
      }
      var actor := repo.FindParticipant(conv, actorId);
      if actor.None? {
        return Failed(NoRows);
      }
      if actor.value.role != Owner {
        return Failed(ManagementDenied);
      }
      var target := repo.FindParticipant(conv, user);
      if target.None? {
        return Failed(NoRows);
      }
      if target.value.role == Owner {
        return Failed(ManagementDenied);
      }
      reply := repo.TransferOwnership(conv, actorId, user, NoFault);
    }

    method UpdateRoomName(conv: ConvId, actorId: UserId, input: string) returns (reply: Reply)
      modifies repo
      ensures (repo.View(), reply) == Apply(old(repo.View()), Call.UpdateRoomName(conv, actorId, input))
    {
      var name := Text.TrimSpace(input);
      if Text.Utf8Length(name) < 3 || Text.Utf8Length(name) > 80 {
        return Failed(InvalidRoomName);
      }
      var conversation := repo.FindByID(conv);
      if conversation.None? {
        return Failed(NoRows);
      }
      if conversation.value.kind != Room {
        return Failed(ManagementDenied);
      }
      var actor := repo.FindParticipant(conv, actorId);
      if actor.None? {
        return Failed(NoRows);
      }
      if actor.value.role != Owner && actor.value.role != Admin {
        return Failed(ManagementDenied);
      }
      reply := repo.UpdateRoomName(conv, name);
    }

    method DeleteRoom(conv: ConvId, actorId: UserId) returns (reply: Reply)
      modifies repo
      ensures (repo.View(), reply) == Apply(old(repo.View()), Call.DeleteRoom(conv, actorId))
    {
      var conversation := repo.FindByID(conv);
      if conversation.None? {
        return Failed(NoRows);
      }
      if conversation.value.kind != Room {
        return Failed(ManagementDenied);
      }
      var actor := repo.FindParticipant(conv, actorId);
      if actor.None? {
        return Failed(NoRows);
      }
      if actor.value.role != Owner {
        return Failed(ManagementDenied);
      }
      reply := repo.DeleteConversation(conv);
    }
  }
}
