/** Small types shared by the other modules. */
module Common {

  datatype Option<+T> = None | Some(value: T)

  /** A point in time, counted in microseconds, the precision the database keeps. */
  type Time = nat

  type UserId = nat
  type ConvId = nat
  type MessageId = nat

  /** The all-zero uuid, which the services refuse as a user id. */
  const NIL_USER: UserId := 0

  /** A message row. The sender is lost when its account goes. */
  datatype Message = Message(id: MessageId, sender: Option<UserId>, content: string, createdAt: Time)

  /** `s` occurs in `t` as one uninterrupted stretch. */
  ghost predicate IsSlice<T>(s: seq<T>, t: seq<T>) {
    exists a, b :: 0 <= a <= b <= |t| && s == t[a..b]
  }

  ghost predicate Distinct<T>(s: seq<T>) {
    forall i, j :: 0 <= i < j < |s| ==> s[i] != s[j]
  }

  function Elements<T>(s: seq<T>): set<T> { set x | x in s }

  lemma ElementsSnoc<T>(s: seq<T>, i: nat)
    requires i < |s|
    ensures Elements(s[..i + 1]) == Elements(s[..i]) + {s[i]}
  {
    assert s[..i + 1] == s[..i] + [s[i]];
  }

  ghost predicate Ascending(l: seq<Message>) {
    forall i, j :: 0 <= i < j < |l| ==> l[i].createdAt <= l[j].createdAt
  }

  /** JavaScript dates count milliseconds. */
  function Millis(t: Time): nat { t / 1000 }

  /** A clock of any lower precision keeps the order of points in time, but may make them equal. */
  ghost predicate Coarsens(precision: Time -> nat) {
    forall s: Time, t: Time :: s <= t ==> precision(s) <= precision(t)
  }

  lemma MillisCoarsens()
    ensures Coarsens(Millis)
  {
    forall s: Time, t: Time | s <= t ensures Millis(s) <= Millis(t) {}
  }

  lemma OneTimesMore(n: nat, p: nat)
    ensures (n + 1) * p == n * p + p
  {}
}
