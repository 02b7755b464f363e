/**
 "Read" and "unread" in their four forms: the server's count, the client's badge kept up to date event
 by event, the tick under one's own messages, and the divider in the message list. The server compares
 microseconds, the client milliseconds.
 */
module ReadTracking {
  import opened Common

  // ---------------------------------------------------------------- the server's count

  /** The join condition of the unread count: someone else's message, later than the last reading. */
  predicate Unread(m: Message, user: UserId, lastRead: Option<Time>) {
    m.sender != Some(user) && (lastRead.None? || m.createdAt > lastRead.value)
  }

  function UnreadIn(messages: seq<Message>, user: UserId, lastRead: Option<Time>): seq<Message> {
    if messages == [] then []
    else
      var n := |messages| - 1;
      UnreadIn(messages[..n], user, lastRead) + if Unread(messages[n], user, lastRead) then [messages[n]] else []
  }

  function UnreadCount(messages: seq<Message>, user: UserId, lastRead: Option<Time>): nat {
    |UnreadIn(messages, user, lastRead)|
  }

  lemma UnreadSnoc(messages: seq<Message>, m: Message, user: UserId, lastRead: Option<Time>)
    ensures UnreadCount(messages + [m], user, lastRead) ==
            UnreadCount(messages, user, lastRead) + if Unread(m, user, lastRead) then 1 else 0
  {
    assert (messages + [m])[..|messages|] == messages;
  }

  lemma {:induction false} UnreadConcat(front: seq<Message>, back: seq<Message>, user: UserId, lastRead: Option<Time>)
    ensures UnreadCount(front + back, user, lastRead) ==
            UnreadCount(front, user, lastRead) + UnreadCount(back, user, lastRead)
  {
    if back == [] {
      assert front + back == front;
    } else {
      var n := |back| - 1;
      UnreadConcat(front, back[..n], user, lastRead);
      assert front + back == (front + back[..n]) + [back[n]] && back == back[..n] + [back[n]];
      UnreadSnoc(front + back[..n], back[n], user, lastRead);
      UnreadSnoc(back[..n], back[n], user, lastRead);
    }
  }

  // ---------------------------------------------------------------- the badge

  /**
   One conversation that is not selected, seen by one user. `messages` and `lastRead` are the rows on
   the server, `now` its clock; `badge` is what the client shows.
   */
  datatype View = View(messages: seq<Message>, lastRead: Option<Time>, now: Time, badge: nat)

  /** Events in the order their statements committed. `Reload` is a fresh conversation list. */
  datatype Change =
    | Created(m: Message)
    | Removed(index: nat)
    | MarkedRead(at: Time)
    | OtherRead(at: Time)
    | Reload

  /** The clock never runs backwards; a row that is deleted was there. */
  predicate Possible(v: View, c: Change) {
    match c
    case Created(m) => v.now <= m.createdAt
    case Removed(i) => i < |v.messages|
    case MarkedRead(at) => v.now <= at
    case OtherRead(at) => v.now <= at
    case Reload => true
  }

  /** The handler's rule: count up for others' messages, back to zero on the user's own reading. */
  function Step(v: View, user: UserId, c: Change): View requires Possible(v, c) {
    match c
    case Created(m) =>
      v.(messages := v.messages + [m], now := m.createdAt,
         badge := if m.sender != Some(user) then v.badge + 1 else v.badge)
    case Removed(i) => v.(messages := v.messages[..i] + v.messages[i + 1..])
    case MarkedRead(at) => v.(lastRead := Some(at), now := at, badge := 0)
    case OtherRead(at) => v.(now := at)
    case Reload => v.(badge := UnreadCount(v.messages, user, v.lastRead))
  }

  /** How far this change lets the badge run ahead of the count. */
  function Ahead(v: View, user: UserId, c: Change, ahead: nat): nat requires Possible(v, c) {
    match c
    case Created(m) => ahead + if m.sender != Some(user) && v.lastRead == Some(m.createdAt) then 1 else 0
    case Removed(i) => ahead + if Unread(v.messages[i], user, v.lastRead) then 1 else 0
    case MarkedRead(_) => 0
    case OtherRead(_) => ahead
    case Reload => 0
  }

  predicate PossibleRun(v: View, user: UserId, changes: seq<Change>)
    decreases |changes|
  {
    changes == [] || (Possible(v, changes[0]) && PossibleRun(Step(v, user, changes[0]), user, changes[1..]))
  }

  function Run(v: View, user: UserId, changes: seq<Change>): View requires PossibleRun(v, user, changes)
    decreases |changes|
  {
    if changes == [] then v else Run(Step(v, user, changes[0]), user, changes[1..])
  }

  function RunAhead(v: View, user: UserId, changes: seq<Change>, ahead: nat): nat requires PossibleRun(v, user, changes)
    decreases |changes|
  {
    if changes == [] then ahead
    else RunAhead(Step(v, user, changes[0]), user, changes[1..], Ahead(v, user, changes[0], ahead))
  }

  ghost predicate PastOnly(v: View) {
    (forall m <- v.messages :: m.createdAt <= v.now) && (v.lastRead.Some? ==> v.lastRead.value <= v.now)
  }

  lemma {:induction false} NothingUnreadAfter(messages: seq<Message>, user: UserId, at: Time)
    requires forall m <- messages :: m.createdAt <= at
    ensures UnreadCount(messages, user, Some(at)) == 0
  {
    if messages != [] { NothingUnreadAfter(messages[..|messages| - 1], user, at); }
  }

  lemma StepCounts(v: View, user: UserId, c: Change, ahead: nat)
    requires PastOnly(v) && Possible(v, c) && v.badge == UnreadCount(v.messages, user, v.lastRead) + ahead
    ensures var w := Step(v, user, c);
      PastOnly(w) && w.badge == UnreadCount(w.messages, user, w.lastRead) + Ahead(v, user, c, ahead)
  {
    match c
    case Created(m) => UnreadSnoc(v.messages, m, user, v.lastRead);
    case Removed(i) =>
      var front, m, back := v.messages[..i], v.messages[i], v.messages[i + 1..];
      assert v.messages == (front + [m]) + back;
      UnreadConcat(front + [m], back, user, v.lastRead);
      UnreadSnoc(front, m, user, v.lastRead);
      UnreadConcat(front, back, user, v.lastRead);
    case MarkedRead(at) => NothingUnreadAfter(v.messages, user, at);
    case _ =>
  }

  /**
   The badge is never below the count a fresh list would show, and it is ahead by exactly the number of
   others' messages that, since the last reset, were deleted unread or created in the very instant of
   the last reading.
   */
  lemma {:induction false} BadgeAgainstCount(v: View, user: UserId, changes: seq<Change>, ahead: nat)
    requires PastOnly(v) && PossibleRun(v, user, changes)
    requires v.badge == UnreadCount(v.messages, user, v.lastRead) + ahead
    ensures var w := Run(v, user, changes);
      w.badge == UnreadCount(w.messages, user, w.lastRead) + RunAhead(v, user, changes, ahead)
    decreases |changes|
  {
    if changes != [] {
      StepCounts(v, user, changes[0], ahead);
      BadgeAgainstCount(Step(v, user, changes[0]), user, changes[1..], Ahead(v, user, changes[0], ahead));
    }
  }

  /** No message is ever created in the instant of the last reading, and none is deleted unread. */
  predicate Undisturbed(v: View, user: UserId, changes: seq<Change>) requires PossibleRun(v, user, changes)
    decreases |changes|
  {
    changes == [] ||
    (&& (changes[0].Created? ==> v.now < changes[0].m.createdAt)
     && (changes[0].Removed? ==> !Unread(v.messages[changes[0].index], user, v.lastRead))
     && Undisturbed(Step(v, user, changes[0]), user, changes[1..]))
  }

  /** With a strictly increasing clock and no unread message deleted, badge and count are the same. */
  lemma {:induction false} BadgeIsCount(v: View, user: UserId, changes: seq<Change>)
    requires PastOnly(v) && PossibleRun(v, user, changes) && Undisturbed(v, user, changes)
    requires v.badge == UnreadCount(v.messages, user, v.lastRead)
    ensures var w := Run(v, user, changes); w.badge == UnreadCount(w.messages, user, w.lastRead)
    decreases |changes|
  {
    if changes != [] {
      StepCounts(v, user, changes[0], 0);
      BadgeIsCount(Step(v, user, changes[0]), user, changes[1..]);
    }
  }

  // ---------------------------------------------------------------- the tick

  /** Who has read up to when; a participant who never opened the conversation has no time. */
  type Readings = map<UserId, Option<Time>>

  /** Some other participant's last reading, at the given precision, is not before the message. */
  ghost predicate ShowsRead(m: Message, user: UserId, readings: Readings, precision: Time -> nat) {
    exists v <- readings ::
      v != user && readings[v].Some? && precision(readings[v].value) >= precision(m.createdAt)
  }

  ghost predicate SomeoneHasRead(m: Message, user: UserId, readings: Readings) {
    exists v <- readings :: v != user && !Unread(m, v, readings[v])
  }

  /** Some other participant last read within the millisecond of the message, but before it. */
  ghost predicate ReadInSameMilli(m: Message, user: UserId, readings: Readings) {
    exists v <- readings ::
      && v != user && readings[v].Some?
      && readings[v].value < m.createdAt && Millis(readings[v].value) == Millis(m.createdAt)
  }

  /**
   The tick under one's own message. At the server's precision it shows "read" exactly when some other
   participant does not count the message unread. At the client's precision that still implies "read",
   and the tick runs ahead of the count exactly for a reading in the message's own millisecond.
   */
  lemma TickAgreesWithCount(m: Message, user: UserId, readings: Readings)
    requires m.sender == Some(user)
    ensures ShowsRead(m, user, readings, t => t) <==> SomeoneHasRead(m, user, readings)
    ensures ShowsRead(m, user, readings, Millis) <==>
            SomeoneHasRead(m, user, readings) || ReadInSameMilli(m, user, readings)
  {
    forall v <- readings | v != user
      ensures Unread(m, v, readings[v]) <==> readings[v].None? || m.createdAt > readings[v].value
    {}
    if ShowsRead(m, user, readings, Millis) {
      var v :| v in readings && v != user && readings[v].Some? && Millis(readings[v].value) >= Millis(m.createdAt);
      assert readings[v].value < m.createdAt ==> Millis(readings[v].value) == Millis(m.createdAt);
    }
    if SomeoneHasRead(m, user, readings) {
      var v :| v in readings && v != user && !Unread(m, v, readings[v]);
      assert Millis(readings[v].value) >= Millis(m.createdAt);
    }
  }

  /** Readings arriving by event, each with the server's clock of that moment. */
  datatype Reading = Reading(user: UserId, at: Time)

  function Note(readings: Readings, r: Reading): Readings {
    if r.user in readings then readings[r.user := Some(r.at)] else readings
  }

  function NoteAll(readings: Readings, events: seq<Reading>): Readings {
    if events == [] then readings else NoteAll(Note(readings, events[0]), events[1..])
  }

  ghost predicate Monotone(readings: Readings, now: Time, events: seq<Reading>)
    decreases |events|
  {
    && (forall v <- readings :: readings[v].Some? ==> readings[v].value <= now)
    && (events != [] ==> now <= events[0].at && Monotone(Note(readings, events[0]), events[0].at, events[1..]))
  }

  /** While the participants stay, a message once shown as read is never shown as merely sent again. */
  lemma {:induction false} ReadNeverReverts(m: Message, user: UserId, readings: Readings, now: Time,
                                            events: seq<Reading>)
    requires Monotone(readings, now, events) && ShowsRead(m, user, readings, Millis)
    ensures ShowsRead(m, user, NoteAll(readings, events), Millis)
    decreases |events|
  {
    if events != [] {
      var e := events[0];
      var v :| v in readings && v != user && readings[v].Some? && Millis(readings[v].value) >= Millis(m.createdAt);
      var next := Note(readings, e);
      assert v in next && next[v].Some? && readings[v].value <= next[v].value;
      assert Millis(readings[v].value) <= Millis(next[v].value);
      ReadNeverReverts(m, user, next, e.at, events[1..]);
    }
  }

  /** The last reading of `v` among the events. */
  function LastOf(events: seq<Reading>, v: UserId): Option<Time> {
    if events == [] then None
    else
      var later := LastOf(events[1..], v);
      if later.Some? then later else if events[0].user == v then Some(events[0].at) else None
  }

  /** Every reading is noted: what is known of a participant is the last event, or what was known before. */
  lemma {:induction false} LastReadingIsNoted(readings: Readings, events: seq<Reading>, v: UserId)
    ensures v in NoteAll(readings, events) <==> v in readings
    ensures v in readings ==>
      NoteAll(readings, events)[v] == if LastOf(events, v).Some? then LastOf(events, v) else readings[v]
  {
    if events != [] { LastReadingIsNoted(Note(readings, events[0]), events[1..], v); }
  }

  /** And so the tick follows: once another participant's reading reaches the message, it shows as read. */
  lemma {:induction false} TickFollowsReading(m: Message, user: UserId, readings: Readings, now: Time,
                                              events: seq<Reading>, e: Reading)
    requires Monotone(readings, now, events) && e in events
    requires e.user != user && e.user in readings && Millis(e.at) >= Millis(m.createdAt)
    ensures ShowsRead(m, user, NoteAll(readings, events), Millis)
    decreases |events|
  {
    var next := Note(readings, events[0]);
    if e == events[0] {
      assert next[e.user] == Some(e.at);
      ReadNeverReverts(m, user, next, events[0].at, events[1..]);
    } else {
      TickFollowsReading(m, user, next, events[0].at, events[1..], e);
    }
  }

  // ---------------------------------------------------------------- the divider

  predicate LaterThanRead(m: Message, user: UserId, lastRead: Option<Time>, precision: Time -> nat) {
    m.sender != Some(user) && (lastRead.None? || precision(m.createdAt) > precision(lastRead.value))
  }

  /** The index of the first of others' messages after the last reading, or the length if there is none. */
  function Divider(l: seq<Message>, user: UserId, lastRead: Option<Time>, precision: Time -> nat): (d: nat)
    ensures d <= |l|
  {
    if l == [] || LaterThanRead(l[0], user, lastRead, precision) then 0
    else 1 + Divider(l[1..], user, lastRead, precision)
  }

  /** On a list in time order the divider splits others' messages exactly: read above, unread below. */
  lemma {:induction false} DividerSplits(l: seq<Message>, user: UserId, lastRead: Option<Time>,
                                         precision: Time -> nat, i: nat)
    requires Ascending(l) && Coarsens(precision) && i < |l| && l[i].sender != Some(user)
    ensures i < Divider(l, user, lastRead, precision) <==> !LaterThanRead(l[i], user, lastRead, precision)
  {
    if LaterThanRead(l[0], user, lastRead, precision) {
      assert precision(l[0].createdAt) <= precision(l[i].createdAt) by {
        assert l[0].createdAt <= l[i].createdAt;
      }
    } else if i > 0 {
      assert Ascending(l[1..]) by {
        assert forall j | 0 <= j < |l[1..]| :: l[1..][j] == l[j + 1];
      }
      DividerSplits(l[1..], user, lastRead, precision, i - 1);
    }
  }

  /**
   At the client's precision the divider never puts a read message among the unread; it puts an unread
   one above itself exactly when that message came in the millisecond of the last reading, after it.
   */
  lemma DividerAtMillis(l: seq<Message>, user: UserId, lastRead: Option<Time>, i: nat)
    requires Ascending(l) && i < |l| && l[i].sender != Some(user)
    ensures var d := Divider(l, user, lastRead, Millis);
      && (i >= d ==> Unread(l[i], user, lastRead))
      && (i < d && Unread(l[i], user, lastRead) <==>
            lastRead.Some? && lastRead.value < l[i].createdAt && Millis(lastRead.value) == Millis(l[i].createdAt))
  {
    MillisCoarsens();
    DividerSplits(l, user, lastRead, Millis, i);
  }

  lemma {:induction false} NoneUnread(l: seq<Message>, user: UserId, lastRead: Option<Time>)
    requires forall i | 0 <= i < |l| && l[i].sender != Some(user) :: !Unread(l[i], user, lastRead)
    ensures UnreadCount(l, user, lastRead) == 0
  {
    if l != [] {
      var n := |l| - 1;
      assert forall i | 0 <= i < n :: l[..n][i] == l[i];
      NoneUnread(l[..n], user, lastRead);
    }
  }

  function OthersIn(l: seq<Message>, user: UserId): seq<Message> {
    if l == [] then []
    else OthersIn(l[..|l| - 1], user) + if l[|l| - 1].sender != Some(user) then [l[|l| - 1]] else []
  }

  lemma {:induction false} CountFromIndex(l: seq<Message>, user: UserId, lastRead: Option<Time>, d: nat)
    requires d <= |l|
    requires forall i | 0 <= i < |l| && l[i].sender != Some(user) :: i < d <==> !Unread(l[i], user, lastRead)
    ensures UnreadCount(l, user, lastRead) == |OthersIn(l[d..], user)|
  {
    if d == |l| {
      NoneUnread(l, user, lastRead);
    } else {
      var n := |l| - 1;
      assert forall i | 0 <= i < n :: l[..n][i] == l[i];
      CountFromIndex(l[..n], user, lastRead, d);
      assert l == l[..n] + [l[n]];
      UnreadSnoc(l[..n], l[n], user, lastRead);
      assert l[d..][..|l[d..]| - 1] == l[..n][d..];
    }
  }

  /** The unread count of a fully loaded conversation is the number of others' messages below the divider. */
  lemma DividerAgreesWithCount(l: seq<Message>, user: UserId, lastRead: Option<Time>)
    requires Ascending(l)
    ensures UnreadCount(l, user, lastRead) == |OthersIn(l[Divider(l, user, lastRead, t => t)..], user)|
  {
    var exact: Time -> nat := t => t;
    var d := Divider(l, user, lastRead, exact);
    forall i: nat | i < |l| && l[i].sender != Some(user)
      ensures i < d <==> !Unread(l[i], user, lastRead)
    {
      DividerSplits(l, user, lastRead, exact, i);
    }
    CountFromIndex(l, user, lastRead, d);
    assert Divider(l, user, lastRead, t => t) == d;
  }
}
