# A verified model of the chat application's state-keeping logic

The application is a Go server over PostgreSQL and Redis with a React client. This project models the
parts of it that keep state across calls and connections, and proves what they guarantee over whole
runs. `dafny verify dfyconfig.toml` verifies everything.

| file | what it models |
|---|---|
| `RealtimeHub.dfy` | the realtime hub as a concurrent machine: join, leave, payload arrival, forwarder pull, snapshot, one send, eviction, dequeue |
| `HubGuarantees.dfy` | what every run of that machine guarantees |
| `HubObject.dfy` | the hub as an object with methods, and its loop as a refinement of the machine's steps |
| `ConversationStore.dfy` | the conversation tables, the service's checks, the repository's writes, one whole call |
| `ConversationRules.dfy` | ownership, roles and direct chats at the coarse grain: one step is one whole call |
| `ConversationEffects.dfy` | which calls are accepted, with what error the others are refused, and what each call changes |
| `ConversationInterleaving.dfy` | the same calls at the fine grain: one step is one repository operation |
| `ConversationService.dfy` | the repository and the service as classes, proved to do what the whole call says |
| `MessagePaging.dfy` | the paged query, the in-place reversal, the client's re-sort, cursor and merge |
| `MessageList.dfy`, `ChatClient.dfy` | the client's message list and the handlers that rewrite it |
| `ReadTracking.dfy` | unread count, badge, tick and divider |
| `RateLimiter.dfy` | the fixed-window limiter, with INCR, EXPIRE and TTL as separate steps |
| `RateWitnesses.dfy` | runs that reach the limiter's bounds |
| `Presence.dfy` | per-user connection counts next to the shared online set |
| `Migrations.dfy` | the migration runner |

How the model is set up:

- Machines take any sequence of actions; an action that is not possible in a state changes nothing, so
  a statement about all sequences is a statement about all runs and all interleavings.
- Ids are numbers. `nextId` stands for fresh uuids, which are taken never to repeat. The database starts
  empty and migrated, so no row has the role the second migration gives to old creators of direct chats.
- A database transaction is one step. A repository call may fail without an effect; a commit that took
  effect but was reported as failed is not considered.
- The generation and index on a queued event, the close counters, and the limiter's lists of issues,
  lives and answer times are records of history that no step of the code depends on.
- A conversation row carries its participant rows, which is how the foreign key and its cascade appear.
- A Redis key is gone from the instant of its expiry on.

What the model says about the code that its documentation does not:

- The hub can crash the process: a client that leaves, or is evicted, between being selected for a
  broadcast and being sent to has a closed queue, and sending to it panics. `CrashExactly` says when,
  and `RunCrashesExactly` which runs do.
- "Exactly one owner" holds when calls on a room do not overlap. Two overlapping transfers by the owner
  leave two owners (`OverlappingTransfersLeaveTwoOwners`). `WriteKeepsOneOwnerExactly` says which writes
  keep the rule however stale their checks are, and `RunKeepsOneOwnerExactly` which whole runs.
- "One direct chat per pair" likewise: two overlapping find-or-create calls leave two
  (`OverlappingCreatesLeaveTwoDirectChats`). `WriteKeepsDirectsUniqueExactly` says which writes keep the
  rule, and `RunKeepsOneChatExactly` which whole runs.
- Paging loses exactly the messages that a page boundary cuts off from others of the same instant.
- Of the requests whose INCR falls in a half-open interval as long as the window, the limiter allows up
  to `2 * limit - 1`, and never `2 * limit`. Dated instead by the answer that lets them through, requests
  have no bound (`NoBoundByAnswer`) unless answers come within some delay of the INCR
  (`DelayedBound`, `DelayedBoundIsReached`).
- The documentation says presence is based on active connections. A failed connect leaves a count
  behind, after which that user's status never changes again (`FailedConnectFreezesPresence`), so a
  connected user can stay offline for good (`FailedConnectHidesUser`). `StatusRightExactly` says in which
  runs a user's status is right throughout.

## Model

| member | source | states |
|---|---|---|
| HubGuarantees.HubStructure | backend/internal/realtime/hub.go:35-72 | In every run: a conversation has a client set iff it has a subscription, no set is empty, a client that joined is registered and never closed or unregistered and closed exactly once, and a subscription is the stored one and open or was closed exactly once |
| RealtimeHub.LeaveAgain | backend/internal/handlers/websocket.go:103-104 | Unsubscribing a client that was evicted before changes nothing |
| HubGuarantees.NoGaps | backend/internal/realtime/hub.go:78-105 | In every interleaving, what one subscription puts on a client's queue, and what reaches its socket, is an uninterrupted in-order stretch of the events that subscription's payloads decode to |
| HubGuarantees.NothingMissed | backend/internal/realtime/hub.go:78-94 | A client registered when the snapshot for an event is taken has, at every later moment of every run, been given that event, or is still to be dealt with by that broadcast, or is closed |
| HubGuarantees.QueuedIsWritten | backend/internal/realtime/client.go:65-76 | Once the write pump has had as many turns as the queue was long, everything that was queued has reached the socket, in order, whatever else happened in between |
| HubGuarantees.ForwarderNeverStuck | backend/internal/realtime/hub.go:78-105 | As long as a forwarder has a payload to fetch or a broadcast to finish, a step of its own is possible, and leaves less to do unless it is the panic |
| HubGuarantees.FullQueueIsEvicted | backend/internal/realtime/hub.go:87-93 | A full queue is never skipped over: the client is closed and unregistered with its log unchanged, and the broadcast goes on with the rest |
| HubGuarantees.ClosedClientGetsNothing | backend/internal/realtime/client.go:88-92 | After a client leaves or is evicted, no later step of any run puts anything on its queue or reopens it |
| HubGuarantees.CrashExactly | backend/internal/realtime/hub.go:79-92 | A forwarder about to send to a client it selected panics iff that client was unregistered between the snapshot and the send; a registered client's queue is open |
| HubGuarantees.RunCrashesExactly | backend/internal/realtime/hub.go:79-92 | A run has crashed iff some step of it sent to a client that an earlier snapshot of the same forwarder selected and that was unregistered in between |
| HubGuarantees.CrashIsReachable | backend/internal/realtime/hub.go:60-63 | A six-step run that ends in the panic |
| HubObject.Hub.Subscribe | backend/internal/realtime/hub.go:35-49 | Registers the client and opens a subscription only for a conversation without one; keeps the structure |
| HubObject.Hub.Unsubscribe | backend/internal/realtime/hub.go:51-72 | Removes and closes a registered client, and drops the conversation and closes its subscription with the last one; keeps the structure |
| HubObject.Hub.BroadcastLocal | backend/internal/realtime/hub.go:78-94 | When no join or leave interrupts it, in whatever order the map yields: members with room have the event appended, full ones are closed and removed, nobody else changes, and no send meets a closed queue |
| HubObject.Hub.ForwardSubscription | backend/internal/realtime/hub.go:96-105 | When nothing interrupts it: broadcasts every decodable payload in order and skips the others |
| HubObject.ForwardedReachesMembers | backend/internal/realtime/hub.go:96-105 | A member with room for all of them ends with exactly the decoded events appended, and still registered |
| HubObject.UninterruptedTurnsAreABroadcast | backend/internal/realtime/hub.go:78-94 | The machine's snapshot, sends and evictions, when nothing interrupts them, leave the hub as the broadcast loop does |
| ConversationRules.EveryRoomHasOneOwner | backend/internal/services/conversation_service.go:177-393 | Coarse grain: from an empty database, after any sequence of calls, successful, refused or cut short, every room has exactly one owner |
| ConversationRules.WriteKeepsOneOwnerExactly | backend/internal/repositories/conversation_repository.go:284-365 | Either grain: in a room with one owner a write leaves one owner iff its condition still holds when it runs |
| ConversationRules.WriteKeepsDirectsUniqueExactly | backend/internal/repositories/conversation_repository.go:62-113 | Either grain: a write leaves at most one direct chat per pair iff it does not insert a chat for a pair that has one by then |
| ConversationRules.DirectIsFoundEverAfter | backend/internal/services/conversation_service.go:129-149 | Coarse grain: once a pair's direct chat was returned, every later call for the pair, either way round, returns that id and changes nothing, and no other chat of the pair exists |
| ConversationRules.NoRiseWithoutTheOwner | backend/internal/services/conversation_service.go:177-393 | Coarse grain: while the owner does nothing to the room it keeps existing with that owner, nobody becomes admin, and an admin stops being one only by leaving |
| ConversationRules.ReAddingChangesNothing | backend/internal/repositories/conversation_repository.go:284-294 | Adding someone who is already a participant changes no row |
| ConversationEffects.AcceptedExactly | backend/internal/services/conversation_service.go:114-393 | For every store and call: it is accepted iff it is well-formed, by someone with the role for it, in the right kind of conversation and on a permitted target; a refused call changes nothing |
| ConversationEffects.RefusedWith | backend/internal/services/conversation_service.go:114-393 | The error of every refused call |
| ConversationEffects.RowEffects | backend/internal/repositories/conversation_repository.go:284-329 | After adding, changing a role, removing, leaving or marking read: the one row is as asked for, the reply shows it, and no other row or conversation differs |
| ConversationEffects.TransferEffect | backend/internal/repositories/conversation_repository.go:331-365 | After a transfer the actor is an admin and the target the owner, with their reading marks, and nobody else is touched |
| ConversationEffects.RenameEffect | backend/internal/services/conversation_service.go:346-371 | After a rename the room has the trimmed name and nothing else differs |
| ConversationEffects.DeleteEffect | backend/internal/services/conversation_service.go:373-393 | After a deletion the room is gone and every other conversation is as before |
| ConversationEffects.CreateRoomEffect | backend/internal/repositories/conversation_repository.go:22-60 | A registered user and a good name make a fresh room of that name, trimmed, with its creator as only participant and owner |
| ConversationEffects.CreateDirectEffect | backend/internal/repositories/conversation_repository.go:62-99 | Two registered users without a chat get a fresh one, both as plain members |
| Text.TrimSpaceKeepsTheRest | backend/internal/services/conversation_service.go:115 | Trimming takes white space off either end, nothing else, and leaves none there |
| ConversationInterleaving.UninterruptedIsAtomic | backend/internal/services/conversation_service.go:114-393 | A call's repository operations, one after the other without interruption, do what the whole call does |
| ConversationInterleaving.DirectChatsAreFixed | backend/internal/services/conversation_service.go:216-244 | Fine grain, any overlap: a direct chat always has two distinct members with the plain role and no name, and is never changed or deleted, though changing a role never looks at the conversation's type |
| ConversationInterleaving.RoomNamesAreProper | backend/internal/services/conversation_service.go:346-370 | Fine grain, any overlap: a room always has a trimmed name of 3 to 80 bytes |
| ConversationInterleaving.CallsAreAnswered | backend/internal/services/conversation_service.go:114-393 | Fine grain, any overlap: a call that begins is answered by its fourth turn, whatever other calls do |
| ConversationInterleaving.NonOverlappingRunsSerialise | backend/internal/services/conversation_service.go:114-393 | Fine grain: if no two calls on one conversation (and no two opening the same direct chat) overlap, the store and all replies are those of the calls made one at a time in order of their last steps |
| ConversationInterleaving.NonOverlappingRunsKeepOneOwner | backend/internal/services/conversation_service.go:129-393 | Fine grain: under the same condition every room keeps exactly one owner and every pair at most one direct chat |
| ConversationInterleaving.RunKeepsOneOwnerExactly | backend/internal/services/conversation_service.go:177-393 | Fine grain, any overlap: every room has one owner in every state of a run iff every write of the run still found its condition on owners true when it ran |
| ConversationInterleaving.RunKeepsOneChatExactly | backend/internal/services/conversation_service.go:129-149 | Fine grain, any overlap: every pair has at most one direct chat in every state of a run iff no write of the run inserted a chat for a pair that had one by then |
| ConversationInterleaving.StepsOnDifferentConversationsCommute | backend/internal/repositories/conversation_repository.go:284-365 | Steps of calls on different conversations commute, in the store and in what each reads and answers |
| ConversationInterleaving.OverlappingTransfersLeaveTwoOwners | backend/internal/services/conversation_service.go:311-344 | Fine grain: for any room, two overlapping transfers by its owner to different members can end with both as owners |
| ConversationInterleaving.OverlappingCreatesLeaveTwoDirectChats | backend/internal/services/conversation_service.go:129-149 | Fine grain: two overlapping find-or-create calls for a new pair can create two direct chats |
| ConversationService.ConversationRepository.TransferOwnership | backend/internal/repositories/conversation_repository.go:331-365 | Demotes and promotes together or changes nothing: a missing target row, or a failure at any statement, leaves the tables as they were |
| ConversationService.ConversationRepository.FindDirectBetweenUsers | backend/internal/repositories/conversation_repository.go:101-113 | Finds a direct conversation with both users iff there is one |
| ConversationService.ConversationRepository.AddParticipant | backend/internal/repositories/conversation_repository.go:284-294 | Inserts a participant with the given role, returns an existing row unchanged, or refuses a missing user or conversation |
| ConversationService.ConversationService.CreateDirect | backend/internal/services/conversation_service.go:129-149 | Store and reply are those of the whole call: refusals, then the existing chat, then a new one |
| ConversationService.ConversationService.AddRoomParticipant | backend/internal/services/conversation_service.go:177-201 | Store and reply are those of the whole call, every refusal in the source's order |
| ConversationService.ConversationService.UpdateParticipantRole | backend/internal/services/conversation_service.go:216-244 | Store and reply are those of the whole call, every refusal in the source's order, texts that name no role included |
| ConversationService.ConversationService.RemoveParticipant | backend/internal/services/conversation_service.go:246-283 | Store and reply are those of the whole call, every refusal in the source's order |
| ConversationService.ConversationService.LeaveRoom | backend/internal/services/conversation_service.go:285-309 | Store and reply are those of the whole call, every refusal in the source's order |
| ConversationService.ConversationService.TransferOwnership | backend/internal/services/conversation_service.go:311-344 | Store and reply are those of the whole call, every refusal in the source's order |
| ConversationService.ConversationService.UpdateRoomName | backend/internal/services/conversation_service.go:346-371 | Store and reply are those of the whole call, every refusal in the source's order |
| ConversationService.ConversationService.DeleteRoom | backend/internal/services/conversation_service.go:373-393 | Store and reply are those of the whole call, every refusal in the source's order |
| MessagePaging.ReverseMessages | backend/internal/repositories/message_repository.go:144-148 | Reverses the array in place |
| MessagePaging.ListForConversation | backend/internal/repositories/message_repository.go:59-95 | From the rows of the descending limited query, returns the newest eligible messages in ascending order |
| MessagePaging.ClampLimit | backend/internal/services/message_service.go:102-108 | The limit used is the requested one between 1 and 100, 50 below that and 100 above |
| MessagePaging.ResortIsNoOp | frontend/src/api.ts:348-352 | A stable sort by any monotone coarsening of the timestamp leaves the server's page unchanged |
| MessagePaging.FirstIsSoundCursor | frontend/src/App.tsx:1172-1175 | After the re-sort by milliseconds the first message is the oldest of the page to the microsecond |
| MessagePaging.PagingRecoversExactly | frontend/src/App.tsx:1149-1185 | When a page comes back short, the list starts with messages of the original history in order, each once, and a message is held iff no page boundary cut it off, whatever was appended meanwhile |
| MessagePaging.CutOffTies | backend/internal/repositories/message_repository.go:64-71 | A message that is cut off has the timestamp of the oldest message of some page |
| MessagePaging.PagingRecoversAll | frontend/src/App.tsx:1149-1185 | With distinct timestamps the list starts with the whole original history in order, each message once |
| MessagePaging.PagingTerminates | frontend/src/App.tsx:1171-1176 | The full pages of a run together hold no more messages than the original history, so the run ends |
| MessagePaging.TiesCanLoseAMessage | backend/internal/repositories/message_repository.go:64-71 | For every page size: in a history one longer than a page whose two oldest messages tie, the one left off the first page is never shown |
| MessageList.NoDuplicates | frontend/src/App.tsx:648-706 | Whatever the order of loads, echoes, events and older pages, no id is twice in the list |
| MessageList.SurvivorsKeepTheirOrder | frontend/src/App.tsx:1177-1185 | Apart from whole-list loads, messages that stay in the list keep their relative order |
| MessageList.CreateEffect | frontend/src/App.tsx:653-661 | A created message is in the list; with a new id it is the last one and the rest is as before |
| MessageList.EditEffect | frontend/src/App.tsx:690-696 | An edited message takes the place of the one with its id, and no other place changes |
| MessageList.DeleteEffect | frontend/src/App.tsx:700-706 | Deleting takes away exactly the messages with the id |
| MessageList.OlderEffect | frontend/src/App.tsx:1177-1185 | The page goes in front of the unchanged list, less what the list holds |
| MessageList.CreatedStays | frontend/src/App.tsx:648-706 | In every run a created message is shown until it is deleted or a whole list is loaded, and as created until it is edited |
| ChatClient.Client.OlderMessagesArrive | frontend/src/App.tsx:1176-1185 | The page, less what is held, goes in front; more is offered iff the page was full |
| ChatClient.Client.AddMessage | frontend/src/App.tsx:1140-1146 | Appends the message unless its id is present |
| ChatClient.Client.OnCreated | frontend/src/App.tsx:648-687 | Changes the list only of the selected conversation and counts the badge up only of an unselected one, for others' messages; reports a selected conversation as read for others' messages |
| ChatClient.Client.OnRead | frontend/src/App.tsx:709-745 | The user's own reading clears that badge only; a known participant's reading is noted per conversation, and in the selected one's list |
| ReadTracking.BadgeAgainstCount | frontend/src/App.tsx:668-718 | In every run the badge equals the server's count plus the number of others' messages that since the last reset were deleted unread or created in the instant of the last reading |
| ReadTracking.BadgeIsCount | backend/internal/repositories/conversation_repository.go:147-159 | With a strictly increasing clock and no unread message deleted, badge and count are equal |
| ReadTracking.TickAgreesWithCount | frontend/src/App.tsx:1384-1398 | At equal precision the tick shows read iff some other participant does not count the message unread; at milliseconds it does so also exactly for a reading earlier in the message's own millisecond |
| ReadTracking.ReadNeverReverts | frontend/src/App.tsx:720-744 | While participants stay and the clock is monotone, read never turns back into sent |
| ReadTracking.TickFollowsReading | frontend/src/App.tsx:720-744 | Once another participant's reading event reaches the message's time, the message shows as read, after any further events |
| ReadTracking.LastReadingIsNoted | frontend/src/App.tsx:720-744 | After any events a participant's known reading is that of the last event about them |
| ReadTracking.DividerSplits | frontend/src/App.tsx:204-216 | On a list in time order the divider has exactly the read ones of others' messages above it |
| ReadTracking.DividerAtMillis | frontend/src/App.tsx:210-214 | In milliseconds every one of others' messages below the divider is unread for the server, and an unread one is above it iff it came in the last reading's own millisecond |
| ReadTracking.DividerAgreesWithCount | backend/internal/repositories/conversation_repository.go:153-155 | At equal precision the unread count is the number of others' messages below the divider |
| RateLimiter.Limiter.Allow | backend/internal/ratelimit/limiter.go:26-58 | The counter after the call, when it errs (any of the three commands can fail), when it allows, and the remaining and retry values |
| RateLimiter.AllowIsThreeSteps | backend/internal/ratelimit/limiter.go:29-42 | One request's three commands with nothing in between do what the call does |
| RateLimiter.LifeBound | backend/internal/ratelimit/limiter.go:34-38 | Over every interleaved and timed run, at most the limit is allowed per life of the counter |
| RateLimiter.WindowBound | backend/internal/ratelimit/limiter.go:26-58 | Over every such run, with commands failing at will, of the requests whose INCR falls in a half-open interval as long as the window at most twice the limit less one are allowed |
| RateWitnesses.WindowBoundIsReached | backend/internal/ratelimit/limiter.go:26-58 | For every limit and every window of two ticks or more some run reaches that bound, and twice the limit in the closed interval |
| RateLimiter.DelayedBound | backend/internal/ratelimit/limiter.go:29-48 | Dated by the answer that lets them through: if each TTL answers within a delay of its INCR, at most twice the limit less one, and the limit again for each window the delay reaches into |
| RateWitnesses.DelayedBoundIsReached | backend/internal/ratelimit/limiter.go:29-48 | For every limit, every window of two ticks or more and a delay of any number of windows some run reaches the bound for delayed answers |
| RateWitnesses.NoBoundByAnswer | backend/internal/ratelimit/limiter.go:29-48 | Without such a delay, any number of requests can be let through in one instant |
| Presence.Service.Connect | backend/internal/presence/service.go:26-36 | Counts up, and announces only the first connection |
| Presence.Service.Disconnect | backend/internal/presence/service.go:38-49 | Counts down, and removes the count and announces only at the last connection |
| Presence.Service.Statuses | backend/internal/presence/service.go:51-72 | Answers for exactly the users asked about, each by membership in the online set; fails iff Redis does and someone was asked about |
| Presence.CountIsLivePlusFailed | backend/internal/handlers/websocket.go:97-101 | In every run a user's count is the user's live sockets plus failed connects, and no zero is kept |
| Presence.StepKeepsStatusExactly | backend/internal/presence/service.go:26-49 | A right status stays right iff the event is not the first arrival or last end of one of the user's sockets with an earlier failure still counted, or with a Redis command lost or unheard |
| Presence.StatusRightExactly | backend/internal/handlers/websocket.go:97-101 | A user's status is right at every moment of a run iff no event of the run is such a one |
| Presence.OnlineIsLive | backend/internal/presence/service.go:26-49 | As long as Redis works for what concerns a user, that user is online exactly with a live socket |
| Presence.FailedConnectHidesUser | backend/internal/presence/service.go:26-36 | After a failed and then a successful connect a user has a live socket and is offline, whatever happens later |
| Presence.FailedConnectFreezesPresence | backend/internal/handlers/websocket.go:97-101 | After a failed connect of a user nothing in any later run changes whether that user is online |
| Migrations.Runner.Run | backend/internal/migrations/runner.go:25-51 | Commits and reports exactly what the recursive description of a run says, and the recorded names are the committed ones |
| Migrations.Runner.Apply | backend/internal/migrations/runner.go:82-103 | Script and record take effect together, or neither does |
| Migrations.MigrationsRunExactlyOnce | backend/internal/migrations/runner.go:25-51 | For a fixed directory, after any runs failing anywhere, what is committed is a prefix of the sorted files, nothing is lost, and a successful run completes it |
| Migrations.RunOnceExactly | backend/internal/migrations/runner.go:25-51 | A run fails iff its failure comes at setup, at a lookup it makes or in applying a file not applied before; it has then committed every file before that one, and otherwise all of them, and nothing else |
| Migrations.UndisturbedRunCompletes | backend/internal/migrations/runner.go:25-51 | After any failed runs, a run that meets no failure ends with the whole list applied, and reports success |
| Migrations.RunFromNeverRepeats | backend/internal/migrations/runner.go:35-48 | Whatever files there are now, a run repeats nothing, drops nothing, and on success has applied them all |

## Left out

- HTTP handlers, routing, tokens, passwords and user search: mappings over libraries.
- HubObject.Hub.BroadcastLocal: speaks of a broadcast that no join or leave interrupts; what interruptions do is stated about the machine, by NoGaps, NothingMissed and CrashExactly.
- HubObject.Hub.ForwardSubscription: speaks of a payload loop with nothing else running, for the same reason.
- Hub object: clients are kept in a map from id to record, so pointer identity of clients is not modelled.
- The subscription's own goroutine that copies messages from Redis to its channel: payloads arrive in order, even after the subscription is closed, which allows more than the library does.
- WebSocket framing, deadlines and pings: a client's connection is only "take one event" and "leave".
- Names and contents that are not well-formed Unicode.
- joined_at, created_at and updated_at of conversations: no modelled check or write depends on them.
- FindDirectBetweenUsers: when several rows match, SQL may return any; the model returns the least id, and DirectIsFoundEverAfter shows that at the coarse grain only one matches.
- Concurrent transfers inside the database: the two statements of the ownership transaction are one step.
- Deletion of messages while pages are being loaded; the list merge itself covers deletion.
- Message creation, editing and deletion guards of the message service: each is settled by its own branch.
- Which conversation a late older page belongs to: it is merged into the list shown by then, as the client does.
- Rounding of the retry-after header and of key expiry to seconds.
- Several server processes sharing one online set, and several migration runners at once.
- React rendering, scrolling and socket reopening.
