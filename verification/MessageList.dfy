/**
 The client's list of messages under everything that rewrites it: whole-list loads, the echo of the
 user's own messages, realtime events and older pages, in any order.
 */
module MessageList {
  import opened Common

  function Ids(l: seq<Message>): set<MessageId> { set m <- l :: m.id }

  predicate DistinctIds(l: seq<Message>) {
    forall i, j :: 0 <= i < j < |l| ==> l[i].id != l[j].id
  }

  /** A new message goes to the end, unless a message with its id is already there. */
  function Add(l: seq<Message>, m: Message): seq<Message> {
    if m.id in Ids(l) then l else l + [m]
  }

  function AddAll(l: seq<Message>, more: seq<Message>): seq<Message> {
    if more == [] then l else Add(AddAll(l, more[..|more| - 1]), more[|more| - 1])
  }

  function Update(l: seq<Message>, m: Message): seq<Message> {
    seq(|l|, i requires 0 <= i < |l| => if l[i].id == m.id then m else l[i])
  }

  function Without(l: seq<Message>, ids: set<MessageId>): seq<Message> {
    if l == [] then [] else (if l[0].id in ids then [] else [l[0]]) + Without(l[1..], ids)
  }

  /** An older page goes in front, less what the list already holds. */
  function MergeOlder(older: seq<Message>, l: seq<Message>): seq<Message> {
    Without(older, Ids(l)) + l
  }

  datatype Change =
    | Load(page: seq<Message>)
    | Create(message: Message)
    | Edit(message: Message)
    | Delete(id: MessageId)
    | Older(page: seq<Message>)

  function Apply(l: seq<Message>, c: Change): seq<Message> {
    match c
    case Load(page) => page
    case Create(m) => Add(l, m)
    case Edit(m) => Update(l, m)
    case Delete(id) => Without(l, {id})
    case Older(page) => MergeOlder(page, l)
  }

  function Run(l: seq<Message>, changes: seq<Change>): seq<Message> {
    if changes == [] then l else Apply(Run(l, changes[..|changes| - 1]), changes[|changes| - 1])
  }

  // ---------------------------------------------------------------- no duplicates

  lemma IdsConcat(l: seq<Message>, k: seq<Message>)
    ensures Ids(l + k) == Ids(l) + Ids(k)
  {}

  /** How `Without` and `Ids` treat the first message and the rest. */
  lemma Unfold(l: seq<Message>, ids: set<MessageId>)
    requires l != []
    ensures Ids(l) == {l[0].id} + Ids(l[1..])
    ensures Without(l, ids) == if l[0].id in ids then Without(l[1..], ids) else [l[0]] + Without(l[1..], ids)
  {
    assert l == [l[0]] + l[1..];
    IdsConcat([l[0]], l[1..]);
    assert [] + Without(l[1..], ids) == Without(l[1..], ids);
  }

  lemma {:induction false} WithoutIds(l: seq<Message>, ids: set<MessageId>)
    ensures Ids(Without(l, ids)) == Ids(l) - ids
  {
    if l != [] {
      Unfold(l, ids);
      WithoutIds(l[1..], ids);
      IdsConcat([l[0]], Without(l[1..], ids));
    }
  }

  lemma DistinctConcat(l: seq<Message>, k: seq<Message>)
    requires DistinctIds(l) && DistinctIds(k) && Ids(l) !! Ids(k)
    ensures DistinctIds(l + k)
  {
    forall i, j | 0 <= i < j < |l + k| ensures (l + k)[i].id != (l + k)[j].id {
      if i < |l| <= j { assert l[i].id in Ids(l) && k[j - |l|].id in Ids(k); }
    }
  }

  lemma {:induction false} WithoutDistinct(l: seq<Message>, ids: set<MessageId>)
    requires DistinctIds(l)
    ensures DistinctIds(Without(l, ids))
  {
    if l != [] {
      Unfold(l, ids);
      WithoutDistinct(l[1..], ids);
      WithoutIds(l[1..], ids);
      assert forall j | 0 <= j < |l[1..]| :: l[1..][j] == l[j + 1];
      DistinctConcat([l[0]], Without(l[1..], ids));
    }
  }

  lemma ApplyKeepsDistinct(l: seq<Message>, c: Change)
    requires DistinctIds(l) && (c.Load? || c.Older? ==> DistinctIds(c.page))
    ensures DistinctIds(Apply(l, c))
  {
    match c
    case Delete(id) => WithoutDistinct(l, {id});
    case Older(page) =>
      WithoutIds(page, Ids(l));
      WithoutDistinct(page, Ids(l));
      DistinctConcat(Without(page, Ids(l)), l);
    case Create(m) => if m.id !in Ids(l) { DistinctConcat(l, [m]); }
    case _ =>
  }

  /** Whatever the order of loads, echoes, events and older pages, no id is ever in the list twice. */
  lemma {:induction false} NoDuplicates(changes: seq<Change>)
    requires forall c <- changes :: c.Load? || c.Older? ==> DistinctIds(c.page)
    ensures DistinctIds(Run([], changes))
  {
    if changes != [] {
      var n := |changes| - 1;
      NoDuplicates(changes[..n]);
      assert changes[n] in changes;
      ApplyKeepsDistinct(Run([], changes[..n]), changes[n]);
    }
  }

  // ---------------------------------------------------------------- order

  /** Some message with id `x` stands before some message with id `y`. */
  predicate Before(l: seq<Message>, x: MessageId, y: MessageId) {
    l != [] && ((l[0].id == x && y in Ids(l[1..])) || Before(l[1..], x, y))
  }

  lemma {:induction false} BeforeWithout(l: seq<Message>, ids: set<MessageId>, x: MessageId, y: MessageId)
    requires x !in ids && y !in ids
    ensures Before(Without(l, ids), x, y) <==> Before(l, x, y)
  {
    if l != [] {
      BeforeWithout(l[1..], ids, x, y);
      WithoutIds(l[1..], ids);
      Unfold(l, ids);
      assert l[0].id !in ids ==> Without(l, ids)[0] == l[0] && Without(l, ids)[1..] == Without(l[1..], ids);
    }
  }

  lemma {:induction false} BeforeInFront(front: seq<Message>, l: seq<Message>, x: MessageId, y: MessageId)
    requires x !in Ids(front) && y !in Ids(front)
    ensures Before(front + l, x, y) <==> Before(l, x, y)
  {
    if front == [] {
      assert front + l == l;
    } else {
      assert front == [front[0]] + front[1..];
      assert (front + l)[1..] == front[1..] + l;
      BeforeInFront(front[1..], l, x, y);
    }
  }

  lemma {:induction false} BeforeAtEnd(l: seq<Message>, m: Message, x: MessageId, y: MessageId)
    requires y != m.id
    ensures Before(l + [m], x, y) <==> Before(l, x, y)
  {
    if l == [] {
      assert (l + [m])[1..] == [];
    } else {
      assert (l + [m])[1..] == l[1..] + [m];
      IdsConcat(l[1..], [m]);
      BeforeAtEnd(l[1..], m, x, y);
    }
  }

  lemma UpdateKeepsIds(l: seq<Message>, m: Message)
    ensures Ids(Update(l, m)) == Ids(l)
  {
    assert forall i | 0 <= i < |l| :: Update(l, m)[i].id == l[i].id && Update(l, m)[i] in Update(l, m);
    forall id <- Ids(l) ensures id in Ids(Update(l, m)) {
      var i :| 0 <= i < |l| && l[i].id == id;
      assert Update(l, m)[i].id == id;
    }
  }

  lemma {:induction false} BeforeUpdate(l: seq<Message>, m: Message, x: MessageId, y: MessageId)
    ensures Before(Update(l, m), x, y) <==> Before(l, x, y)
  {
    if l != [] {
      assert Update(l, m)[1..] == Update(l[1..], m);
      UpdateKeepsIds(l[1..], m);
      BeforeUpdate(l[1..], m, x, y);
    }
  }

  lemma ApplyKeepsOrder(l: seq<Message>, c: Change, x: MessageId, y: MessageId)
    requires !c.Load? && x in Ids(l) && y in Ids(l) && x in Ids(Apply(l, c)) && y in Ids(Apply(l, c))
    ensures Before(Apply(l, c), x, y) <==> Before(l, x, y)
  {
    match c
    case Create(m) => if m.id !in Ids(l) { BeforeAtEnd(l, m, x, y); }
    case Edit(m) => BeforeUpdate(l, m, x, y);
    case Delete(id) => WithoutIds(l, {id}); BeforeWithout(l, {id}, x, y);
    case Older(page) => WithoutIds(page, Ids(l)); BeforeInFront(Without(page, Ids(l)), l, x, y);
  }

  /** `x` and `y` are both in the list at every moment of the run. */
  predicate StayIn(l: seq<Message>, changes: seq<Change>, x: MessageId, y: MessageId) {
    forall n | 0 <= n <= |changes| :: {x, y} <= Ids(Run(l, changes[..n]))
  }

  /** Apart from a whole-list load, messages that stay in the list keep their relative order. */
  lemma {:induction false} SurvivorsKeepTheirOrder(l: seq<Message>, changes: seq<Change>, x: MessageId, y: MessageId)
    requires (forall c <- changes :: !c.Load?) && StayIn(l, changes, x, y)
    ensures Before(Run(l, changes), x, y) <==> Before(l, x, y)
  {
    if changes != [] {
      var n := |changes| - 1;
      assert forall m | 0 <= m <= n :: changes[..n][..m] == changes[..m];
      SurvivorsKeepTheirOrder(l, changes[..n], x, y);
      assert changes[..|changes|] == changes;
      assert {x, y} <= Ids(Run(l, changes[..n])) && {x, y} <= Ids(Run(l, changes[..n + 1]));
      assert changes[n] in changes;
      ApplyKeepsOrder(Run(l, changes[..n]), changes[n], x, y);
    }
  }

  // ---------------------------------------------------------------- what each change does

  lemma {:induction false} WithoutElements(l: seq<Message>, ids: set<MessageId>)
    ensures forall m :: m in Without(l, ids) <==> m in l && m.id !in ids
  {
    if l != [] {
      Unfold(l, ids);
      WithoutElements(l[1..], ids);
      assert l == [l[0]] + l[1..];
    }
  }

  /** A created message is in the list; if its id is new, it is the last one and the rest is as before. */
  lemma CreateEffect(l: seq<Message>, m: Message)
    ensures var t := Apply(l, Create(m));
      && m.id in Ids(t)
      && (m.id !in Ids(l) ==> t == l + [m])
      && (m.id in Ids(l) ==> t == l)
  {
    if m.id !in Ids(l) { IdsConcat(l, [m]); }
  }

  /** An edited message takes the place of the one with its id; no other place changes. */
  lemma EditEffect(l: seq<Message>, m: Message)
    ensures var t := Apply(l, Edit(m));
      && |t| == |l|
      && (m in t <==> m.id in Ids(l))
      && forall i | 0 <= i < |l| :: t[i] == if l[i].id == m.id then m else l[i]
  {
    var t := Apply(l, Edit(m));
    if m.id in Ids(l) {
      var i :| 0 <= i < |l| && l[i].id == m.id;
      assert t[i] == m;
    }
    if m in t {
      var i :| 0 <= i < |t| && t[i] == m;
      assert l[i].id == m.id;
    }
  }

  /** Deleting takes away every message with the id, and nothing else. */
  lemma DeleteEffect(l: seq<Message>, id: MessageId)
    ensures forall m :: m in Apply(l, Delete(id)) <==> m in l && m.id != id
  {
    WithoutElements(l, {id});
  }

  /** An older page goes in front of the list, less the messages whose ids are there already. */
  lemma OlderEffect(l: seq<Message>, page: seq<Message>)
    ensures var t := Apply(l, Older(page));
      && |l| <= |t| && t[|t| - |l|..] == l
      && forall m :: m in t[..|t| - |l|] <==> m in page && m.id !in Ids(l)
  {
    WithoutElements(page, Ids(l));
    assert Apply(l, Older(page))[..|Without(page, Ids(l))|] == Without(page, Ids(l));
  }

  lemma StepShows(l: seq<Message>, c: Change, m: Message)
    requires !c.Load? && c != Delete(m.id)
    ensures m.id in Ids(l) ==> m.id in Ids(Apply(l, c))
    ensures m in l && !(c.Edit? && c.message.id == m.id) ==> m in Apply(l, c)
  {
    match c
    case Create(n) => CreateEffect(l, n); IdsConcat(l, [n]);
    case Edit(n) =>
      UpdateKeepsIds(l, n);
      if m in l && n.id != m.id {
        var i :| 0 <= i < |l| && l[i] == m;
        assert Update(l, n)[i] == m;
      }
    case Delete(id) => WithoutIds(l, {id}); WithoutElements(l, {id});
    case Older(page) => IdsConcat(Without(page, Ids(l)), l);
  }

  /**
   What is shown stays shown, until the message is deleted or a whole list is loaded, and as it is
   until it is edited, whatever else arrives.
   */
  lemma {:induction false} ShownStays(l: seq<Message>, m: Message, changes: seq<Change>)
    requires forall c <- changes :: !c.Load? && c != Delete(m.id)
    ensures m.id in Ids(l) ==> m.id in Ids(Run(l, changes))
    ensures m in l && (forall c <- changes :: !(c.Edit? && c.message.id == m.id)) ==> m in Run(l, changes)
  {
    if changes != [] {
      var n := |changes| - 1;
      ShownStays(l, m, changes[..n]);
      assert changes[n] in changes;
      StepShows(Run(l, changes[..n]), changes[n], m);
    }
  }

  /** So a created message is shown until it is deleted or a whole list is loaded. */
  lemma CreatedStays(l: seq<Message>, m: Message, changes: seq<Change>)
    requires forall c <- changes :: !c.Load? && c != Delete(m.id)
    ensures var t := Run(Apply(l, Create(m)), changes);
      && m.id in Ids(t)
      && (m.id !in Ids(l) && (forall c <- changes :: !(c.Edit? && c.message.id == m.id)) ==> m in t)
  {
    CreateEffect(l, m);
    ShownStays(Apply(l, Create(m)), m, changes);
  }
}
