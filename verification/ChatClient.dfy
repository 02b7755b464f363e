/**
 The browser client's handlers: they rewrite the message list of the selected conversation, the unread
 badges and the participants' last readings. Each is proved against the functions whose whole runs
 `MessageList` and `ReadTracking` speak about.
 */
module ChatClient {
  import opened Common
  import MessageList
  import ReadTracking

  const MESSAGE_PAGE_SIZE := 30

  function Change(l: seq<Message>, here: bool, c: MessageList.Change): seq<Message> {
    if here then MessageList.Apply(l, c) else l
  }

  /** `participants` belongs to the selected conversation and is what the tick reads; `readings` to all. */
  class Client {
    const user: UserId
    var signedIn: bool
    var selected: Option<ConvId>
    var messages: seq<Message>
    var hasOlder: bool
    var unread: map<ConvId, nat>
    var participants: ReadTracking.Readings
    var readings: map<ConvId, ReadTracking.Readings>

    constructor (user: UserId, signedIn: bool)
      ensures this.user == user && this.signedIn == signedIn && selected == None && messages == []
      ensures unread == map[] && participants == map[] && readings == map[]
    {
      this.user, this.signedIn := user, signedIn;
      selected, messages, hasOlder, unread, participants, readings := None, [], false, map[], map[], map[];
    }

    method LoadMessages(items: seq<Message>)
      modifies this`messages, this`hasOlder
      ensures messages == MessageList.Apply(old(messages), MessageList.Load(items)) == items
      ensures hasOlder <==> |items| == MESSAGE_PAGE_SIZE
    {
      messages := items;
      hasOlder := |items| == MESSAGE_PAGE_SIZE;
    }

    /** The page may arrive late: it is merged into whatever list is shown by then. */
    method OlderMessagesArrive(page: seq<Message>)
      modifies this`messages, this`hasOlder
      ensures messages == MessageList.Apply(old(messages), MessageList.Older(page))
      ensures hasOlder <==> |page| == MESSAGE_PAGE_SIZE
    {
      hasOlder := |page| == MESSAGE_PAGE_SIZE;
      var held := MessageList.Ids(messages);
      messages := MessageList.Without(page, held) + messages;
    }

    method AddMessage(m: Message)
      modifies this`messages
      ensures messages == MessageList.Apply(old(messages), MessageList.Create(m))
      ensures m.id in MessageList.Ids(messages)
      ensures m.id !in MessageList.Ids(old(messages)) ==> messages == old(messages) + [m]
    {
      MessageList.CreateEffect(messages, m);
      if exists i :: 0 <= i < |messages| && messages[i].id == m.id {
        return;
      }
      messages := messages + [m];
    }

    /**
     message.created: the list if the conversation is selected, its badge if it is not. Says whether the
     server is to be told that the conversation was read.
     */
    method OnCreated(conv: ConvId, m: Message) returns (markRead: bool)
      modifies this`messages, this`unread
      ensures messages == Change(old(messages), selected == Some(conv), MessageList.Create(m))
      ensures unread.Keys == old(unread).Keys
      ensures forall k <- unread | k != conv || selected == Some(conv) :: unread[k] == old(unread)[k]
      ensures conv in unread && selected != Some(conv) ==>
        unread[conv] == old(unread)[conv] + if m.sender != Some(user) then 1 else 0
      ensures conv in unread && selected != Some(conv) ==>
        forall v: ReadTracking.View | v.badge == old(unread)[conv] && v.now <= m.createdAt ::
          ReadTracking.Step(v, user, ReadTracking.Created(m)).badge == unread[conv]
      ensures markRead <==> selected == Some(conv) && m.sender != Some(user) && signedIn
    {
      markRead := false;
      if selected == Some(conv) {
        AddMessage(m);
        if m.sender != Some(user) && signedIn {
          markRead := true;
        }
      }
      if conv in unread {
        var shouldIncrement := selected != Some(conv) && m.sender != Some(user);
        unread := unread[conv := if shouldIncrement then unread[conv] + 1 else unread[conv]];
      }
    }

    method OnUpdated(conv: ConvId, m: Message)
      modifies this`messages
      ensures messages == Change(old(messages), selected == Some(conv), MessageList.Edit(m))
    {
      if selected == Some(conv) {
        messages := MessageList.Update(messages, m);
      }
    }

    /** message.deleted leaves the badge alone. */
    method OnDeleted(conv: ConvId, id: MessageId)
      modifies this`messages
      ensures messages == Change(old(messages), selected == Some(conv), MessageList.Delete(id))
    {
      if selected == Some(conv) {
        messages := MessageList.Without(messages, {id});
      }
    }

    /** conversation.read: the user's own reading clears the badge; every reading is noted. */
    method OnRead(conv: ConvId, reader: UserId, at: Time)
      modifies this`unread, this`participants, this`readings
      ensures unread.Keys == old(unread).Keys
      ensures forall k <- unread :: unread[k] == (if k == conv && reader == user then 0 else old(unread)[k])
      ensures readings.Keys == old(readings).Keys
      ensures conv in readings ==>
        readings[conv] == ReadTracking.Note(old(readings)[conv], ReadTracking.Reading(reader, at))
      ensures forall k <- readings | k != conv :: readings[k] == old(readings)[k]
      ensures participants ==
        if selected == Some(conv) then ReadTracking.Note(old(participants), ReadTracking.Reading(reader, at))
        else old(participants)
    {
      if reader == user && conv in unread {
        unread := unread[conv := 0];
      }
      if conv in readings && reader in readings[conv] {
        var noted: ReadTracking.Readings := readings[conv];
        noted := noted[reader := Some(at)];
        readings := readings[conv := noted];
      }
      if selected == Some(conv) && reader in participants {
        participants := participants[reader := Some(at)];
      }
    }
  }
}
