/** Text as the services see it: Unicode characters, trimmed, and measured in UTF-8 bytes. */
module Text {

  predicate IsSpace(c: char) {
    || '\t' <= c <= '\r' || c == ' ' || c == '\U{85}' || c == '\U{A0}' || c == '\U{1680}'
    || '\U{2000}' <= c <= '\U{200A}' || c == '\U{2028}' || c == '\U{2029}' || c == '\U{202F}'
    || c == '\U{205F}' || c == '\U{3000}'
  }

  function TrimLeft(s: string): string {
    if s != [] && IsSpace(s[0]) then TrimLeft(s[1..]) else s
  }

  function TrimRight(s: string): string {
    if s != [] && IsSpace(s[|s| - 1]) then TrimRight(s[..|s| - 1]) else s
  }

  function TrimSpace(s: string): string { TrimRight(TrimLeft(s)) }

  lemma {:induction false} TrimLeftStops(s: string)
    ensures TrimLeft(s) == [] || !IsSpace(TrimLeft(s)[0])
  {
    if s != [] && IsSpace(s[0]) { TrimLeftStops(s[1..]); }
  }

  lemma {:induction false} TrimRightStops(s: string)
    requires s == [] || !IsSpace(s[0])
    ensures var t := TrimRight(s);
      (s == [] ==> t == []) && (s != [] ==> t != [] && t[0] == s[0] && !IsSpace(t[|t| - 1]))
  {
    if s != [] && IsSpace(s[|s| - 1]) { TrimRightStops(s[..|s| - 1]); }
  }

  function Utf8Length(s: string): nat {
    if s == [] then 0
    else
      var code := s[0] as int;
      (if code < 0x80 then 1 else if code < 0x800 then 2 else if code < 0x1_0000 then 3 else 4)
      + Utf8Length(s[1..])
  }

  predicate AllSpace(s: string) { forall c <- s :: IsSpace(c) }

  lemma {:induction false} TrimLeftKeeps(s: string) returns (a: nat)
    ensures a <= |s| && TrimLeft(s) == s[a..] && AllSpace(s[..a])
  {
    a := 0;
    if s != [] && IsSpace(s[0]) {
      a := TrimLeftKeeps(s[1..]);
      a := a + 1;
      assert s[..a] == [s[0]] + s[1..][..a - 1];
    }
  }

  lemma {:induction false} TrimRightKeeps(s: string) returns (b: nat)
    ensures b <= |s| && TrimRight(s) == s[..b] && AllSpace(s[b..])
  {
    b := |s|;
    if s != [] && IsSpace(s[|s| - 1]) {
      b := TrimRightKeeps(s[..|s| - 1]);
      assert s[b..] == s[..|s| - 1][b..] + [s[|s| - 1]];
    }
  }

  /** Trimming takes away white space at either end and nothing else, and leaves none there. */
  lemma TrimSpaceKeepsTheRest(s: string)
    ensures exists a, b :: 0 <= a <= b <= |s| && TrimSpace(s) == s[a..b] && AllSpace(s[..a]) && AllSpace(s[b..])
    ensures var t := TrimSpace(s); t != [] ==> !IsSpace(t[0]) && !IsSpace(t[|t| - 1])
  {
    var a := TrimLeftKeeps(s);
    var b := TrimRightKeeps(TrimLeft(s));
    TrimLeftStops(s);
    TrimRightStops(TrimLeft(s));
    assert s[a..][..b] == s[a..a + b] && s[a..][b..] == s[a + b..];
  }

  lemma {:induction false} Utf8Concat(s: string, t: string)
    ensures Utf8Length(s + t) == Utf8Length(s) + Utf8Length(t)
  {
    if s == [] {
      assert s + t == t;
    } else {
      assert (s + t)[1..] == s[1..] + t;
      Utf8Concat(s[1..], t);
    }
  }

  /** A text of ASCII characters is as long in bytes as in characters, and no text is more than four times that. */
  lemma {:induction false} Utf8Bounds(s: string)
    ensures |s| <= Utf8Length(s) <= 4 * |s|
    ensures Utf8Length(s) == |s| <==> forall i | 0 <= i < |s| :: s[i] as int < 0x80
  {
    if s != [] {
      Utf8Bounds(s[1..]);
      forall i | 1 <= i < |s| ensures s[i] == s[1..][i - 1] {}
    }
  }

  /** What has been trimmed has nothing left to trim. */
  lemma TrimmedStays(s: string)
    ensures TrimSpace(TrimSpace(s)) == TrimSpace(s)
  {
    TrimLeftStops(s);
    TrimRightStops(TrimLeft(s));
  }
}

/**
 The conversation tables, the service calls that change them, and what one whole call does. A
 conversation row carries its participant rows, so deleting it deletes them and a participant row
 cannot outlive or precede it, as the foreign key with its cascade has it.
 */
module ConversationStore {
  import opened Common
  import Text

  datatype Role = Owner | Admin | Member
  datatype Kind = Room | Direct

  datatype Participant = Participant(role: Role, lastRead: Option<Time>)

  datatype Conversation = Conversation(kind: Kind, name: Option<string>, createdBy: UserId,
                                       participants: map<UserId, Participant>)

  /** `nextId` stands for the supply of fresh uuids: no id is ever handed out twice. */
  datatype Store = Store(users: set<UserId>, conversations: map<ConvId, Conversation>, nextId: ConvId)

  const EMPTY := Store({}, map[], 0)

  datatype Error =
    | InvalidRoomName | InvalidDirectConversation | ManagementDenied | InvalidParticipant | InvalidRole
    | NoRows | ForeignKeyViolation | CheckViolation | Unavailable

  datatype Reply =
    | Done
    | ConversationReply(id: ConvId, name: Option<string>)
    | ParticipantReply(user: UserId, row: Participant)
    | Failed(error: Error)

  /** A role asked for arrives as text; `None` is any text that names no role. */
  datatype Call =
    | Register(user: UserId)
    | CreateRoom(actor: UserId, name: string)
    | CreateDirect(actor: UserId, other: UserId)
    | AddRoomParticipant(conv: ConvId, actor: UserId, user: UserId)
    | UpdateParticipantRole(conv: ConvId, actor: UserId, user: UserId, role: Option<Role>)
    | RemoveParticipant(conv: ConvId, actor: UserId, user: UserId)
    | LeaveRoom(conv: ConvId, actor: UserId)
    | TransferOwnership(conv: ConvId, actor: UserId, user: UserId)
    | UpdateRoomName(conv: ConvId, actor: UserId, name: string)
    | DeleteRoom(conv: ConvId, actor: UserId)
    | MarkRead(conv: ConvId, actor: UserId, now: Time)
  {
    predicate OnConversation() { !Register? && !CreateRoom? && !CreateDirect? }

    /** The calls that look the conversation up and insist on a room. Changing a role does not. */
    predicate ChecksKind() { OnConversation() && !UpdateParticipantRole? && !MarkRead? }

    predicate ChecksActor() { OnConversation() && !MarkRead? }

    predicate ChecksTarget() { UpdateParticipantRole? || RemoveParticipant? || TransferOwnership? }
  }

  // ---------------------------------------------------------------- queries

  function FindParticipant(s: Store, conv: ConvId, user: UserId): Option<Participant> {
    if conv in s.conversations && user in s.conversations[conv].participants
    then Some(s.conversations[conv].participants[user]) else None
  }

  predicate IsDirectBetween(s: Store, conv: ConvId, a: UserId, b: UserId) {
    && conv in s.conversations && s.conversations[conv].kind == Direct
    && a in s.conversations[conv].participants && b in s.conversations[conv].participants
  }

  ghost function Least(ks: set<ConvId>): (k: ConvId)
    requires ks != {}
    ensures k in ks && forall j <- ks :: k <= j
  {
    var j :| j in ks;
    if ks == {j} then j
    else
      assert ks == {j} + (ks - {j});
      var k := Least(ks - {j});
      if j < k then j else k
  }

  /** SQL leaves open which of several matching rows comes first; here, the one with the least id. */
  ghost function FindDirect(s: Store, a: UserId, b: UserId): Option<ConvId> {
    var matches := set k | k in s.conversations && IsDirectBetween(s, k, a, b);
    if matches == {} then None else Some(Least(matches))
  }

  // ---------------------------------------------------------------- the checks before a write

  predicate BadPair(a: UserId, b: UserId) { a == NIL_USER || b == NIL_USER || a == b }

  predicate BadRoomName(name: string) {
    var length := Text.Utf8Length(Text.TrimSpace(name));
    length < 3 || length > 80
  }

  /** The name a room may have in the tables: nothing to trim, and of a permitted length in bytes. */
  predicate ProperName(name: string) { name == Text.TrimSpace(name) && !BadRoomName(name) }

  /** What a call refuses before it asks the repository anything. */
  function Validate(call: Call): Option<Error> {
    match call
    case CreateRoom(_, name) => if BadRoomName(name) then Some(InvalidRoomName) else None
    case CreateDirect(a, b) => if BadPair(a, b) then Some(InvalidDirectConversation) else None
    case AddRoomParticipant(_, a, u) => if BadPair(a, u) then Some(InvalidParticipant) else None
    case UpdateParticipantRole(_, a, u, role) =>
      if BadPair(a, u) then Some(InvalidParticipant)
      else if role != Some(Admin) && role != Some(Member) then Some(InvalidRole)
      else None
    case RemoveParticipant(_, a, u) => if BadPair(a, u) then Some(InvalidParticipant) else None
    case LeaveRoom(_, a) => if a == NIL_USER then Some(InvalidParticipant) else None
    case TransferOwnership(_, a, u) => if BadPair(a, u) then Some(InvalidParticipant) else None
    case UpdateRoomName(_, _, name) => if BadRoomName(name) then Some(InvalidRoomName) else None
    case _ => None
  }

  function CheckKind(s: Store, conv: ConvId): Option<Error> {
    if conv !in s.conversations then Some(NoRows)
    else if s.conversations[conv].kind != Room then Some(ManagementDenied)
    else None
  }

  predicate RoleAllows(call: Call, role: Role) {
    match call
    case AddRoomParticipant(_, _, _) => role != Member
    case RemoveParticipant(_, _, _) => role != Member
    case UpdateRoomName(_, _, _) => role != Member
    case LeaveRoom(_, _) => role != Owner
    case _ => role == Owner
  }

  function CheckActor(s: Store, call: Call): Option<Error> requires call.ChecksActor() {
    match FindParticipant(s, call.conv, call.actor)
    case None => Some(NoRows)
    case Some(row) => if RoleAllows(call, row.role) then None else Some(ManagementDenied)
  }

  function CheckTarget(s: Store, call: Call, actorRole: Role): Option<Error> requires call.ChecksTarget() {
    match FindParticipant(s, call.conv, call.user)
    case None => Some(NoRows)
    case Some(row) =>
      if row.role == Owner then Some(ManagementDenied)
      else if call.RemoveParticipant? && actorRole == Admin && row.role != Member then Some(ManagementDenied)
      else None
  }

  function CheckMember(s: Store, call: Call): Option<Error> requires call.MarkRead? {
    if FindParticipant(s, call.conv, call.actor).None? then Some(ManagementDenied) else None
  }

  /** The first check that fails, in the order the service makes them. */
  function Checks(s: Store, call: Call): Option<Error> {
    if call.MarkRead? then CheckMember(s, call)
    else if !call.ChecksActor() then None
    else if call.ChecksKind() && CheckKind(s, call.conv).Some? then CheckKind(s, call.conv)
    else if CheckActor(s, call).Some? then CheckActor(s, call)
    else if call.ChecksTarget() then
      CheckTarget(s, call, FindParticipant(s, call.conv, call.actor).value.role)
    else None
  }

  // ---------------------------------------------------------------- the repository's writes

  function SetRow(s: Store, conv: ConvId, user: UserId, row: Participant): Store
    requires conv in s.conversations
  {
    var c := s.conversations[conv];
    s.(conversations := s.conversations[conv := c.(participants := c.participants[user := row])])
  }

  function Insert(s: Store, c: Conversation): Store {
    s.(conversations := s.conversations[s.nextId := c], nextId := s.nextId + 1)
  }

  function InsertRoom(s: Store, creator: UserId, name: string): (Store, Reply) {
    if creator !in s.users then (s, Failed(ForeignKeyViolation))
    else (Insert(s, Conversation(Room, Some(name), creator, map[creator := Participant(Owner, None)])),
          ConversationReply(s.nextId, Some(name)))
  }

  function InsertDirect(s: Store, a: UserId, b: UserId): (Store, Reply) {
    if a !in s.users || b !in s.users then (s, Failed(ForeignKeyViolation))
    else (Insert(s, Conversation(Direct, None, a, map[a := Participant(Member, None), b := Participant(Member, None)])),
          ConversationReply(s.nextId, None))
  }

  /** Insert a participant; a row that is already there is returned as it is, whatever role was asked for. */
  function AddParticipant(s: Store, conv: ConvId, user: UserId, role: Role): (Store, Reply) {
    match FindParticipant(s, conv, user)
    case Some(row) => (s, ParticipantReply(user, row))
    case None =>
      if conv !in s.conversations || user !in s.users then (s, Failed(ForeignKeyViolation))
      else (SetRow(s, conv, user, Participant(role, None)), ParticipantReply(user, Participant(role, None)))
  }

  function UpdateRow(s: Store, conv: ConvId, user: UserId, change: Participant -> Participant): (Store, Reply) {
    match FindParticipant(s, conv, user)
    case None => (s, Failed(NoRows))
    case Some(row) => (SetRow(s, conv, user, change(row)), ParticipantReply(user, change(row)))
  }

  /** The table's check constraint refuses a text that names no role. */
  function SetRole(s: Store, conv: ConvId, user: UserId, role: Option<Role>): (Store, Reply) {
    match role
    case Some(known) => UpdateRow(s, conv, user, (row: Participant) => row.(role := known))
    case None => (s, Failed(if FindParticipant(s, conv, user).None? then NoRows else CheckViolation))
  }

  function RemoveRow(s: Store, conv: ConvId, user: UserId): (Store, Reply) {
    if conv !in s.conversations then (s, Done)
    else
      var c := s.conversations[conv];
      (s.(conversations := s.conversations[conv := c.(participants := c.participants - {user})]), Done)
  }

  /** Demote, then promote, in one transaction: without a row to promote, the demotion is rolled back. */
  function Transfer(s: Store, conv: ConvId, current: UserId, next: UserId): (Store, Reply) {
    var (demoted, _) := UpdateRow(s, conv, current, (row: Participant) => row.(role := Admin));
    var (promoted, reply) := UpdateRow(demoted, conv, next, (row: Participant) => row.(role := Owner));
    if reply.Failed? then (s, reply) else (promoted, reply)
  }

  /** The table's check constraint lets a room, and only a room, have a name. */
  function Rename(s: Store, conv: ConvId, name: string): (Store, Reply) {
    if conv !in s.conversations then (s, Failed(NoRows))
    else if s.conversations[conv].kind != Room then (s, Failed(CheckViolation))
    else (s.(conversations := s.conversations[conv := s.conversations[conv].(name := Some(name))]),
          ConversationReply(conv, Some(name)))
  }

  /** The single repository write a call ends in. */
  function Write(s: Store, call: Call): (Store, Reply) {
    match call
    case Register(user) => (s.(users := s.users + {user}), Done)
    case CreateRoom(actor, name) => InsertRoom(s, actor, Text.TrimSpace(name))
    case CreateDirect(actor, other) => InsertDirect(s, actor, other)
    case AddRoomParticipant(conv, _, user) => AddParticipant(s, conv, user, Member)
    case UpdateParticipantRole(conv, _, user, role) => SetRole(s, conv, user, role)
    case RemoveParticipant(conv, _, user) => RemoveRow(s, conv, user)
    case LeaveRoom(conv, actor) => RemoveRow(s, conv, actor)
    case TransferOwnership(conv, actor, user) => Transfer(s, conv, actor, user)
    case UpdateRoomName(conv, _, name) => Rename(s, conv, Text.TrimSpace(name))
    case DeleteRoom(conv, _) => (s.(conversations := s.conversations - {conv}), Done)
    case MarkRead(conv, actor, now) =>
      UpdateRow(s, conv, actor, (row: Participant) => row.(lastRead := Some(now)))
  }

  // ---------------------------------------------------------------- whole calls

  ghost function ExistingDirect(s: Store, call: Call): Option<ConvId> {
    if call.CreateDirect? then FindDirect(s, call.actor, call.other) else None
  }

  /** One service call that nothing interrupts. */
  ghost function Apply(s: Store, call: Call): (Store, Reply) {
    if Validate(call).Some? then (s, Failed(Validate(call).value))
    else if Checks(s, call).Some? then (s, Failed(Checks(s, call).value))
    else
      match ExistingDirect(s, call)
      case Some(k) => (s, ConversationReply(k, if k in s.conversations then s.conversations[k].name else None))
      case None => Write(s, call)
  }

  /** A call, and whether the repository failed before the call could write. */
  datatype Attempt = Attempt(call: Call, fault: bool)

  ghost function Try(s: Store, a: Attempt): (Store, Reply) {
    if a.fault && Validate(a.call).None? then (s, Failed(Unavailable)) else Apply(s, a.call)
  }

  ghost function Run(s: Store, attempts: seq<Attempt>): Store {
    if attempts == [] then s
    else Try(Run(s, attempts[..|attempts| - 1]), attempts[|attempts| - 1]).0
  }

  // ---------------------------------------------------------------- what a sound store looks like

  ghost function Owners(c: Conversation): set<UserId> {
    set u | u in c.participants && c.participants[u].role == Owner
  }

  ghost function Admins(c: Conversation): set<UserId> {
    set u | u in c.participants && c.participants[u].role == Admin
  }

  ghost predicate OneOwner(c: Conversation) { exists o :: Owners(c) == {o} }

  ghost predicate DirectOf(c: Conversation, a: UserId, b: UserId) {
    && c.kind == Direct && c.name == None && a != b && c.participants.Keys == {a, b}
    && c.participants[a].role == Member && c.participants[b].role == Member
  }

  /** True at either grain: ids are in the past, and a direct chat is two plain members. */
  ghost predicate Sound(s: Store) {
    forall k <- s.conversations ::
      && k < s.nextId
      && (s.conversations[k].kind == Direct ==> exists a, b :: DirectOf(s.conversations[k], a, b))
  }

  ghost predicate RoomsOwned(s: Store) {
    forall k <- s.conversations | s.conversations[k].kind == Room :: OneOwner(s.conversations[k])
  }

  ghost predicate RoomsNamed(s: Store) {
    forall k <- s.conversations | s.conversations[k].kind == Room ::
      s.conversations[k].name.Some? && ProperName(s.conversations[k].name.value)
  }

  ghost predicate DirectsUnique(s: Store) {
    forall j <- s.conversations, k <- s.conversations, a, b ::
      IsDirectBetween(s, j, a, b) && IsDirectBetween(s, k, a, b) && a != b ==> j == k
  }
}
