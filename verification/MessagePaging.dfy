/**
 Paging through a conversation's history: the server's query with its limit and in-place reversal, the
 client's re-sort, its cursor and its merge, and what a run of "load older" steps recovers.
 */
module MessagePaging {
  import opened Common
  import MessageList

  const DEFAULT_LIMIT := 50
  const MAX_LIMIT := 100

  // ---------------------------------------------------------------- one page on the server

  /** The messages strictly before the cursor. */
  ghost function Eligible(table: set<Message>, before: Option<Time>): set<Message> {
    set m <- table | before.None? || m.createdAt < before.value
  }

  /** The newest `limit` eligible messages, as many as there are, without order. */
  ghost predicate IsNewest(table: set<Message>, before: Option<Time>, limit: nat, rows: seq<Message>) {
    && Distinct(rows)
    && Elements(rows) <= Eligible(table, before)
    && |rows| <= limit
    && (|rows| < limit ==> Elements(rows) == Eligible(table, before))
    && (forall m <- Eligible(table, before), r <- rows :: m !in rows ==> m.createdAt <= r.createdAt)
  }

  /** What the database promises of ORDER BY created_at DESC LIMIT; ties come in any order. */
  ghost predicate IsQueryResult(table: set<Message>, before: Option<Time>, limit: nat, rows: seq<Message>) {
    && IsNewest(table, before, limit, rows)
    && forall i, j :: 0 <= i < j < |rows| ==> rows[i].createdAt >= rows[j].createdAt
  }

  /** What the server answers with: the newest eligible messages, oldest first. */
  ghost predicate IsPage(table: set<Message>, before: Option<Time>, limit: nat, page: seq<Message>) {
    IsNewest(table, before, limit, page) && Ascending(page)
  }

  function Reversed(l: seq<Message>): seq<Message> {
    seq(|l|, i requires 0 <= i < |l| => l[|l| - 1 - i])
  }

  method ReverseMessages(messages: array<Message>)
    modifies messages
    ensures messages[..] == Reversed(old(messages[..]))
  {
    var n := messages.Length;
    var left, right := 0, n - 1;
    while left < right
      invariant 0 <= left <= right + 1 <= n && left + right == n - 1
      invariant forall k :: left <= k <= right ==> messages[k] == old(messages[k])
      invariant forall k :: 0 <= k < left || right < k < n ==> messages[k] == old(messages[n - 1 - k])
    {
      messages[left], messages[right] := messages[right], messages[left];
      left, right := left + 1, right - 1;
    }
  }

  lemma ReversedElements(l: seq<Message>)
    ensures Elements(Reversed(l)) == Elements(l)
  {
    forall m <- l ensures m in Reversed(l) {
      var i :| 0 <= i < |l| && l[i] == m;
      assert Reversed(l)[|l| - 1 - i] == m;
    }
  }

  lemma ReversedIsPage(table: set<Message>, before: Option<Time>, limit: nat, rows: seq<Message>)
    requires IsQueryResult(table, before, limit, rows)
    ensures IsPage(table, before, limit, Reversed(rows))
  {
    var page := Reversed(rows);
    ReversedElements(rows);
    assert forall m :: m in page <==> m in Elements(page);
    assert forall m :: m in rows <==> m in Elements(rows);
    assert Ascending(page);
    assert Distinct(page);
  }

  /** The limit the service lets through: the default for none, at most the maximum. */
  function ClampLimit(limit: int): (r: nat)
    ensures 1 <= r <= MAX_LIMIT && (1 <= limit <= MAX_LIMIT ==> r == limit)
    ensures limit <= 0 ==> r == DEFAULT_LIMIT
    ensures limit >= 1 ==> r <= limit && (r < limit ==> r == MAX_LIMIT)
  {
    if limit <= 0 then DEFAULT_LIMIT else if limit > MAX_LIMIT then MAX_LIMIT else limit
  }

  /** The rows the database yields are collected one by one, then reversed in place. */
  method ListForConversation(ghost table: set<Message>, before: Option<Time>, requested: int, rows: seq<Message>)
    returns (page: seq<Message>)
    requires IsQueryResult(table, before, ClampLimit(requested), rows)
    ensures IsPage(table, before, ClampLimit(requested), page)
  {
    var messages: seq<Message> := [];
    for i := 0 to |rows|
      invariant messages == rows[..i]
    {
      messages := messages + [rows[i]];
    }
    if |messages| == 0 {
      page := [];
      return;
    }
    var buffer := new Message[|messages|](i requires 0 <= i < |messages| => messages[i]);
    assert buffer[..] == rows;
    ReverseMessages(buffer);
    page := buffer[..];
    ReversedIsPage(table, before, ClampLimit(requested), rows);
  }

  // ---------------------------------------------------------------- the client's re-sort

  /** `output` is `input` sorted by time at some precision, ties in their old order; `from` says what went where. */
  ghost predicate IsStableSort(precision: Time -> nat, input: seq<Message>, output: seq<Message>, from: seq<nat>) {
    && |input| == |output| == |from|
    && Distinct(from)
    && (forall i | 0 <= i < |from| :: from[i] < |input| && output[i] == input[from[i]])
    && (forall i, j | 0 <= i < j < |from| :: precision(output[i].createdAt) <= precision(output[j].createdAt))
    && (forall i, j | 0 <= i < j < |from| ::
          precision(output[i].createdAt) == precision(output[j].createdAt) ==> from[i] < from[j])
  }

  lemma {:induction false} IncreasingStartsHigh(from: seq<nat>, i: nat)
    requires (forall j, k | 0 <= j < k < |from| :: from[j] < from[k]) && i < |from|
    ensures i <= from[i]
  {
    if i > 0 { IncreasingStartsHigh(from, i - 1); }
  }

  lemma {:induction false} IncreasingEndsLow(from: seq<nat>, i: nat)
    requires (forall j, k | 0 <= j < k < |from| :: from[j] < from[k]) && i < |from|
    requires forall j | 0 <= j < |from| :: from[j] < |from|
    ensures from[i] <= i
    decreases |from| - i
  {
    if i < |from| - 1 { IncreasingEndsLow(from, i + 1); }
  }

  /** Whatever the precision, a stable sort leaves the server's page as it came. */
  lemma ResortIsNoOp(precision: Time -> nat, page: seq<Message>, output: seq<Message>, from: seq<nat>)
    requires Coarsens(precision) && Ascending(page) && IsStableSort(precision, page, output, from)
    ensures output == page
  {
    assert forall a, b | 0 <= a < b < |page| :: precision(page[a].createdAt) <= precision(page[b].createdAt);
    forall i, j | 0 <= i < j < |from| ensures from[i] < from[j] {}
    forall i | 0 <= i < |from| ensures output[i] == page[i] {
      IncreasingStartsHigh(from, i);
      IncreasingEndsLow(from, i);
    }
  }

  /** So after the re-sort by milliseconds the first message is still the oldest, to the microsecond. */
  lemma FirstIsSoundCursor(page: seq<Message>, output: seq<Message>, from: seq<nat>)
    requires Ascending(page) && IsStableSort(Millis, page, output, from) && page != []
    ensures output == page && forall m <- page :: output[0].createdAt <= m.createdAt
  {
    MillisCoarsens();
    ResortIsNoOp(Millis, page, output, from);
    forall m <- page ensures page[0].createdAt <= m.createdAt {
      var i :| 0 <= i < |page| && page[i] == m;
    }
  }

  // ---------------------------------------------------------------- a run of pages

  /** The state of the table when a page is read, the new messages seen since the last one, the page. */
  datatype Round = Round(table: set<Message>, live: seq<Message>, page: seq<Message>)

  /** The client's list after some rounds. */
  function Held(rounds: seq<Round>): seq<Message> {
    if rounds == [] then []
    else
      var n := |rounds| - 1;
      MessageList.MergeOlder(rounds[n].page, MessageList.AddAll(Held(rounds[..n]), rounds[n].live))
  }

  function Cursor(rounds: seq<Round>): Option<Time> {
    if Held(rounds) == [] then None else Some(Held(rounds)[0].createdAt)
  }

  ghost predicate IdsUnique(table: set<Message>) {
    forall m <- table, n <- table :: m.id == n.id ==> m == n
  }

  /**
   `later` is `earlier` with newer messages appended. The events in `live`, however late they are
   delivered, are of messages that came after the original `history`.
   */
  ghost predicate Grows(history: set<Message>, earlier: set<Message>, later: set<Message>, live: seq<Message>) {
    && earlier <= later
    && IdsUnique(later)
    && (forall m <- later - earlier, n <- earlier :: n.createdAt <= m.createdAt)
    && (forall m <- live :: m in later - history)
  }

  /** Each round but the last fills its page, which is what makes the client offer another. */
  ghost predicate Legal(rounds: seq<Round>, p: nat) {
    rounds != [] ==>
      var n := |rounds| - 1;
      var round := rounds[n];
      && Legal(rounds[..n], p)
      && IdsUnique(round.table)
      && IsPage(round.table, Cursor(rounds[..n]), ClampLimit(p), round.page)
      && if n == 0 then round.live == []
         else |rounds[n - 1].page| == p && Grows(rounds[0].table, rounds[n - 1].table, round.table, round.live)
  }

  /** The pages alone, oldest first. */
  function Pages(rounds: seq<Round>): seq<Message> {
    if rounds == [] then [] else rounds[|rounds| - 1].page + Pages(rounds[..|rounds| - 1])
  }

  /** The page boundary of some round cut `m` off: it ties with the page's oldest but is not in it. */
  ghost predicate CutOff(rounds: seq<Round>, m: Message) {
    rounds != [] &&
    var n := |rounds| - 1;
    var page := rounds[n].page;
    || CutOff(rounds[..n], m)
    || (&& m in Eligible(rounds[n].table, Cursor(rounds[..n]))
        && page != [] && m !in page && m.createdAt == page[0].createdAt)
  }

  ghost predicate PagesOk(rounds: seq<Round>, p: nat) requires rounds != [] {
    var history, pages, last := rounds[0].table, Pages(rounds), rounds[|rounds| - 1];
    && Ascending(pages) && Distinct(pages)
    && Elements(pages) <= history <= last.table
    && (forall m <- last.table - history, n <- history :: n.createdAt <= m.createdAt)
    && (forall m <- history | CutOff(rounds, m) :: pages != [] && pages[0].createdAt <= m.createdAt)
    && (forall m <- history | m in pages :: !CutOff(rounds, m))
    && (forall m <- history | m !in pages ::
          CutOff(rounds, m) || (|last.page| == p && pages != [] && m.createdAt < pages[0].createdAt))
  }

  /** The list is the pages with newer messages after them. */
  ghost predicate HeldOk(rounds: seq<Round>) requires rounds != [] {
    var held, pages := Held(rounds), Pages(rounds);
    && pages <= held
    && forall i | |pages| <= i < |held| :: held[i] in rounds[|rounds| - 1].table - rounds[0].table
  }

  lemma {:induction false} AddAllAppends(l: seq<Message>, more: seq<Message>)
    ensures l <= MessageList.AddAll(l, more)
    ensures forall i | |l| <= i < |MessageList.AddAll(l, more)| :: MessageList.AddAll(l, more)[i] in more
  {
    if more != [] { AddAllAppends(l, more[..|more| - 1]); }
  }

  lemma {:induction false} WithoutNothing(l: seq<Message>, ids: set<MessageId>)
    requires forall m <- l :: m.id !in ids
    ensures MessageList.Without(l, ids) == l
  {
    if l != [] {
      assert l == [l[0]] + l[1..];
      WithoutNothing(l[1..], ids);
    }
  }

  lemma AtLeastFirst(l: seq<Message>)
    requires Ascending(l)
    ensures forall m <- l :: l[0].createdAt <= m.createdAt
  {
    forall m <- l ensures l[0].createdAt <= m.createdAt {
      var i :| 0 <= i < |l| && l[i] == m;
    }
  }

  lemma FirstHeld(rounds: seq<Round>, p: nat)
    requires |rounds| == 1 && 1 <= p <= MAX_LIMIT && Legal(rounds, p)
    ensures var page := rounds[0].page;
      && Held(rounds) == page && Pages(rounds) == page
      && IsPage(rounds[0].table, None, p, page) && Cursor(rounds[..0]) == None
  {
    var page := rounds[0].page;
    assert rounds[..0] == [] && Held([]) == [];
    assert MessageList.AddAll([], rounds[0].live) == [] && MessageList.Ids([]) == {};
    WithoutNothing(page, {});
    assert page + [] == page && MessageList.MergeOlder(page, []) == page;
  }

  lemma FirstRound(rounds: seq<Round>, p: nat)
    requires |rounds| == 1 && 1 <= p <= MAX_LIMIT && Legal(rounds, p)
    ensures PagesOk(rounds, p) && HeldOk(rounds)
  {
    var page, table := rounds[0].page, rounds[0].table;
    FirstHeld(rounds, p);
    assert Eligible(table, None) == table;
    AtLeastFirst(page);
    forall m <- table | m !in page
      ensures CutOff(rounds, m) || (|page| == p && m.createdAt < page[0].createdAt)
    {
      assert m !in Elements(page);
      if |page| == p { assert page[0] in page; }
    }
    forall m <- table | CutOff(rounds, m) ensures page != [] && page[0].createdAt <= m.createdAt && m !in page {
      assert rounds[..0] == [] && !CutOff(rounds[..0], m);
    }
  }

  /** The cursor splits the table: what is before it is all from the original history and not yet held. */
  lemma CursorSplits(rounds: seq<Round>, p: nat, round: Round)
    requires 1 <= p <= MAX_LIMIT && rounds != [] && PagesOk(rounds, p) && HeldOk(rounds)
    requires |rounds[|rounds| - 1].page| == p
    requires Grows(rounds[0].table, rounds[|rounds| - 1].table, round.table, round.live)
    ensures Pages(rounds) != [] && Held(rounds) != [] && Cursor(rounds) == Some(Pages(rounds)[0].createdAt)
    ensures Eligible(round.table, Cursor(rounds)) == Eligible(rounds[0].table, Cursor(rounds))
    ensures forall m <- round.table :: m !in rounds[0].table ==> Pages(rounds)[0].createdAt <= m.createdAt
  {
    var pages := Pages(rounds);
    assert pages[0] in Elements(pages);
  }

  lemma OrderedConcat(front: seq<Message>, back: seq<Message>)
    requires Ascending(front) && Ascending(back) && Distinct(front) && Distinct(back)
    requires forall m <- front, n <- back :: m.createdAt < n.createdAt
    ensures Ascending(front + back) && Distinct(front + back)
  {
    forall i, j | 0 <= i < j < |front + back|
      ensures (front + back)[i].createdAt <= (front + back)[j].createdAt && (front + back)[i] != (front + back)[j]
    {
      if i < |front| <= j { assert front[i] in front && back[j - |front|] in back; }
    }
  }

  /** The next page comes from the original history, before the cursor. */
  lemma NextPageIsOlder(rounds: seq<Round>, p: nat)
    requires |rounds| >= 2 && 1 <= p <= MAX_LIMIT && Legal(rounds, p)
    requires PagesOk(rounds[..|rounds| - 1], p) && HeldOk(rounds[..|rounds| - 1])
    ensures var n := |rounds| - 1; var page, pages := rounds[n].page, Pages(rounds[..n]);
      && pages != [] && Pages(rounds) == page + pages && rounds[..n][0] == rounds[0]
      && Cursor(rounds[..n]) == Some(pages[0].createdAt)
      && Eligible(rounds[n].table, Cursor(rounds[..n])) == Eligible(rounds[0].table, Cursor(rounds[..n]))
      && (forall m <- page ::
            m in rounds[0].table && m.createdAt < pages[0].createdAt && page[0].createdAt <= m.createdAt)
      && (forall m <- pages :: m in rounds[0].table && pages[0].createdAt <= m.createdAt)
  {
    var n := |rounds| - 1;
    var page, pages := rounds[n].page, Pages(rounds[..n]);
    CursorSplits(rounds[..n], p, rounds[n]);
    AtLeastFirst(page);
    AtLeastFirst(pages);
    forall m <- page ensures m in Eligible(rounds[n].table, Cursor(rounds[..n])) { assert m in Elements(page); }
    forall m <- pages ensures m in rounds[0].table { assert m in Elements(pages); }
  }

  /** What one more round means for one message of the history. */
  lemma NextAccount(rounds: seq<Round>, p: nat, m: Message)
    requires |rounds| >= 2 && 1 <= p <= MAX_LIMIT && Legal(rounds, p) && m in rounds[0].table
    requires PagesOk(rounds[..|rounds| - 1], p) && HeldOk(rounds[..|rounds| - 1])
    ensures var pages, last := Pages(rounds), rounds[|rounds| - 1];
      && pages != []
      && (CutOff(rounds, m) ==> pages[0].createdAt <= m.createdAt)
      && (m in pages ==> !CutOff(rounds, m))
      && (m !in pages ==> CutOff(rounds, m) || (|last.page| == p && m.createdAt < pages[0].createdAt))
  {
    var n := |rounds| - 1;
    var page, pages := rounds[n].page, Pages(rounds[..n]);
    NextPageIsOlder(rounds, p);
    if m !in page + pages && !CutOff(rounds[..n], m) {
      assert m in Eligible(rounds[n].table, Cursor(rounds[..n]));
      assert m in page <==> m in Elements(page);
      if |page| >= p { assert page[0] in page; }
    }
  }

  lemma NextTable(rounds: seq<Round>, p: nat)
    requires |rounds| >= 2 && Legal(rounds, p) && PagesOk(rounds[..|rounds| - 1], p)
    ensures var history, table := rounds[0].table, rounds[|rounds| - 1].table;
      history <= table && forall m <- table - history, n <- history :: n.createdAt <= m.createdAt
  {
    var n := |rounds| - 1;
    var earlier := rounds[n - 1].table;
    assert rounds[..n][n - 1].table == earlier && rounds[..n][0] == rounds[0];
    forall m <- rounds[n].table - rounds[0].table, k <- rounds[0].table ensures k.createdAt <= m.createdAt {
      assert k in earlier;
    }
  }

  lemma NextPages(rounds: seq<Round>, p: nat)
    requires |rounds| >= 2 && 1 <= p <= MAX_LIMIT && Legal(rounds, p)
    requires PagesOk(rounds[..|rounds| - 1], p) && HeldOk(rounds[..|rounds| - 1])
    ensures PagesOk(rounds, p)
  {
    var n := |rounds| - 1;
    NextPageIsOlder(rounds, p);
    OrderedConcat(rounds[n].page, Pages(rounds[..n]));
    NextTable(rounds, p);
    forall m <- rounds[0].table { NextAccount(rounds, p, m); }
    assert Elements(Pages(rounds)) <= rounds[0].table;
  }

  lemma MergeIsPrepend(page: seq<Message>, list: seq<Message>, table: set<Message>, cursor: Time)
    requires IdsUnique(table)
    requires forall m <- page :: m in table && m.createdAt < cursor
    requires forall i | 0 <= i < |list| :: list[i] in table && cursor <= list[i].createdAt
    ensures MessageList.MergeOlder(page, list) == page + list
  {
    forall m <- page ensures m.id !in MessageList.Ids(list) {
      assert forall i | 0 <= i < |list| :: list[i].id != m.id;
    }
    WithoutNothing(page, MessageList.Ids(list));
  }

  lemma NextHeld(rounds: seq<Round>, p: nat)
    requires |rounds| >= 2 && 1 <= p <= MAX_LIMIT && Legal(rounds, p)
    requires PagesOk(rounds[..|rounds| - 1], p) && HeldOk(rounds[..|rounds| - 1])
    ensures HeldOk(rounds)
  {
    var n := |rounds| - 1;
    var before, round := rounds[..n], rounds[n];
    var pages, held := Pages(before), Held(before);
    NextPageIsOlder(rounds, p);
    CursorSplits(before, p, round);
    AddAllAppends(held, round.live);
    var list := MessageList.AddAll(held, round.live);
    forall i | 0 <= i < |list|
      ensures list[i] in round.table && pages[0].createdAt <= list[i].createdAt
      ensures i >= |pages| ==> list[i] !in rounds[0].table
    {
      if i < |pages| {
        assert list[i] == pages[i] && pages[i] in pages;
      } else if i < |held| {
        assert list[i] == held[i];
      } else {
        assert list[i] in round.live;
      }
    }
    MergeIsPrepend(round.page, list, round.table, pages[0].createdAt);
    assert Held(rounds) == round.page + list;
  }

  lemma {:induction false} RoundsOk(rounds: seq<Round>, p: nat)
    requires rounds != [] && 1 <= p <= MAX_LIMIT && Legal(rounds, p)
    ensures PagesOk(rounds, p) && HeldOk(rounds)
  {
    if |rounds| == 1 {
      FirstRound(rounds, p);
    } else {
      RoundsOk(rounds[..|rounds| - 1], p);
      NextPages(rounds, p);
      NextHeld(rounds, p);
    }
  }

  // ---------------------------------------------------------------- what paging recovers

  /**
   When a page comes back short, the list starts with messages of the history as it was at first, in
   order and each once, and a message of that history is among them if and only if no page boundary
   cut it off. Newer messages may have been appended at any time and stand after them.
   */
  lemma PagingRecoversExactly(rounds: seq<Round>, p: nat, m: Message)
    requires rounds != [] && 1 <= p <= MAX_LIMIT && Legal(rounds, p) && |rounds[|rounds| - 1].page| < p
    requires m in rounds[0].table
    ensures Pages(rounds) <= Held(rounds) && Ascending(Pages(rounds)) && Distinct(Pages(rounds))
    ensures Elements(Pages(rounds)) <= rounds[0].table
    ensures m in Pages(rounds) <==> !CutOff(rounds, m)
    ensures m in Held(rounds) <==> !CutOff(rounds, m)
  {
    RoundsOk(rounds, p);
    var held, pages := Held(rounds), Pages(rounds);
    if m in held {
      var i :| 0 <= i < |held| && held[i] == m;
      assert i < |pages| && pages[i] == m;
    }
    if m in pages {
      var i :| 0 <= i < |pages| && pages[i] == m;
      assert held[i] == m;
    }
  }

  /** Whatever is missing ties with the oldest message of some page. */
  lemma {:induction false} CutOffTies(rounds: seq<Round>, m: Message)
    requires CutOff(rounds, m)
    ensures exists n :: 0 <= n < |rounds| && rounds[n].page != [] && m !in rounds[n].page
                        && m.createdAt == rounds[n].page[0].createdAt
  {
    var n := |rounds| - 1;
    if CutOff(rounds[..n], m) {
      CutOffTies(rounds[..n], m);
      var k :| 0 <= k < n && rounds[..n][k].page != [] && m !in rounds[..n][k].page
               && m.createdAt == rounds[..n][k].page[0].createdAt;
      assert rounds[k] == rounds[..n][k];
    }
  }

  lemma LastPageIsInHistory(rounds: seq<Round>, p: nat)
    requires rounds != [] && 1 <= p <= MAX_LIMIT && Legal(rounds, p)
    ensures Elements(rounds[|rounds| - 1].page) <= rounds[0].table
  {
    RoundsOk(rounds, p);
    forall m <- rounds[|rounds| - 1].page ensures m in rounds[0].table {
      assert m in Pages(rounds);
      assert m in Elements(Pages(rounds));
    }
  }

  lemma {:induction false} PagesAreInHistory(rounds: seq<Round>, p: nat, n: nat)
    requires rounds != [] && 1 <= p <= MAX_LIMIT && Legal(rounds, p) && n < |rounds|
    ensures Elements(rounds[n].page) <= rounds[0].table
    decreases |rounds|
  {
    if n == |rounds| - 1 {
      LastPageIsInHistory(rounds, p);
    } else {
      PagesAreInHistory(rounds[..|rounds| - 1], p, n);
    }
  }

  /** Only a second message of the very same instant can have a message cut off. */
  lemma CutOffNeedsATwin(rounds: seq<Round>, p: nat, m: Message)
    requires rounds != [] && 1 <= p <= MAX_LIMIT && Legal(rounds, p) && CutOff(rounds, m)
    ensures exists n <- rounds[0].table :: n != m && n.createdAt == m.createdAt
  {
    CutOffTies(rounds, m);
    var k :| 0 <= k < |rounds| && rounds[k].page != [] && m !in rounds[k].page
             && m.createdAt == rounds[k].page[0].createdAt;
    PagesAreInHistory(rounds, p, k);
    assert rounds[k].page[0] in Elements(rounds[k].page) && rounds[k].page[0] in rounds[k].page;
  }

  /** With distinct timestamps nothing is missing: the whole history, in order, each message once. */
  lemma PagingRecoversAll(rounds: seq<Round>, p: nat)
    requires rounds != [] && 1 <= p <= MAX_LIMIT && Legal(rounds, p) && |rounds[|rounds| - 1].page| < p
    requires forall m <- rounds[0].table, n <- rounds[0].table :: m.createdAt == n.createdAt ==> m == n
    ensures Pages(rounds) <= Held(rounds) && Ascending(Pages(rounds)) && Distinct(Pages(rounds))
    ensures Elements(Pages(rounds)) == rounds[0].table
  {
    RoundsOk(rounds, p);
    forall m <- rounds[0].table ensures m in Elements(Pages(rounds)) {
      PagingRecoversExactly(rounds, p, m);
      if CutOff(rounds, m) { CutOffNeedsATwin(rounds, p, m); }
    }
  }

  lemma {:induction false} DistinctFits(l: seq<Message>, whole: set<Message>)
    requires Distinct(l) && Elements(l) <= whole
    ensures |l| <= |whole|
  {
    if l != [] {
      var n := |l| - 1;
      assert forall i | 0 <= i < n :: l[i] in Elements(l);
      assert l[n] in Elements(l);
      DistinctFits(l[..n], whole - {l[n]});
    }
  }

  ghost predicate AllButLastFull(rounds: seq<Round>, p: nat) {
    forall i | 0 <= i < |rounds| - 1 :: |rounds[i].page| == p
  }

  lemma LegalBefore(rounds: seq<Round>, p: nat)
    requires |rounds| >= 2 && Legal(rounds, p)
    ensures Legal(rounds[..|rounds| - 1], p) && |rounds[|rounds| - 2].page| == p
  {}

  lemma {:induction false} LegalIsFull(rounds: seq<Round>, p: nat)
    requires Legal(rounds, p)
    ensures AllButLastFull(rounds, p)
  {
    if |rounds| >= 2 {
      var n := |rounds| - 1;
      LegalBefore(rounds, p);
      LegalIsFull(rounds[..n], p);
      forall i | 0 <= i < n ensures |rounds[i].page| == p {
        assert rounds[..n][i] == rounds[i];
      }
    }
  }

  lemma {:induction false} PagesLength(rounds: seq<Round>, p: nat)
    requires rounds != [] && AllButLastFull(rounds, p)
    ensures |Pages(rounds)| == p * (|rounds| - 1) + |rounds[|rounds| - 1].page|
  {
    var n := |rounds| - 1;
    if n > 0 {
      assert forall i | 0 <= i < n :: rounds[..n][i] == rounds[i];
      PagesLength(rounds[..n], p);
      OneTimesMore(n - 1, p);
    } else {
      assert Pages(rounds[..0]) == [];
    }
  }

  /**
   Paging stops: a run of rounds takes at most one round for every `p` messages of the history there
   was at first, and one more, however much is appended meanwhile.
   */
  lemma PagingTerminates(rounds: seq<Round>, p: nat)
    requires rounds != [] && 1 <= p <= MAX_LIMIT && Legal(rounds, p)
    ensures p * (|rounds| - 1) + |rounds[|rounds| - 1].page| <= |rounds[0].table|
  {
    RoundsOk(rounds, p);
    LegalIsFull(rounds, p);
    PagesLength(rounds, p);
    DistinctFits(Pages(rounds), rounds[0].table);
  }

  lemma TailIsNewest(l: seq<Message>)
    requires |l| >= 2 && Ascending(l) && Distinct(l)
    ensures IsPage(Elements(l), None, |l| - 1, l[1..])
  {
    var table, page := Elements(l), l[1..];
    assert Eligible(table, None) == table;
    assert l == [l[0]] + page;
    forall m <- table, r <- page | m !in page ensures m.createdAt <= r.createdAt {
      assert m == l[0];
      AtLeastFirst(l);
    }
    assert Elements(page) <= table;
  }

  lemma NothingOlder(r0: Round, r1: Round, p: nat)
    requires 1 <= p <= MAX_LIMIT && Legal([r0], p) && |r0.page| == p && Held([r0]) == r0.page
    requires r1 == Round(r0.table, [], []) && Eligible(r0.table, Cursor([r0])) == {}
    ensures Legal([r0, r1], p) && Held([r0, r1]) == r0.page
  {
    var rounds := [r0, r1];
    assert rounds[..1] == [r0];
    assert IsPage(r1.table, Cursor([r0]), p, []);
    assert IdsUnique(r0.table) by { assert [r0][0] == r0; }
    assert Grows(r0.table, r0.table, r1.table, []);
    assert [] + r0.page == r0.page;
  }

  /**
   Without distinct timestamps a message can be lost, whatever the page size: if a history is longer by
   one than a page and its two oldest messages tie, the client ends without the one left off the page.
   */
  lemma TiesCanLoseAMessage(l: seq<Message>, p: nat)
    requires 1 <= p <= MAX_LIMIT && |l| == p + 1 && Ascending(l) && l[0].createdAt == l[1].createdAt
    requires MessageList.DistinctIds(l)
    ensures var rounds := [Round(Elements(l), [], l[1..]), Round(Elements(l), [], [])];
      Legal(rounds, p) && |rounds[1].page| < p && l[0] in rounds[0].table && l[0] !in Held(rounds)
  {
    var table, page := Elements(l), l[1..];
    var r0, r1 := Round(table, [], page), Round(table, [], []);
    assert Distinct(l);
    assert IdsUnique(table);
    TailIsNewest(l);
    assert Legal([r0], p) by { assert [r0][..0] == [] && Held([]) == [] && Cursor([]) == None && Legal([], p); }
    FirstHeld([r0], p);
    AtLeastFirst(l);
    assert Cursor([r0]) == Some(l[1].createdAt) && Eligible(table, Some(l[1].createdAt)) == {};
    NothingOlder(r0, r1, p);
  }
}
